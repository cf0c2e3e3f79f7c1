/** The delete handler of demo.js: after deleting `fileName` it redirects to
    the listing of the folder that held the file. That folder's path is
    computed by splitting the key on `/`, dropping the last piece and joining
    the rest again. */
module DeleteRoute {
  import opened JsStrings

  /** The path of the folder holding `fileName`: the empty path (the bucket's
      root) for a key without `/`, otherwise everything before the last `/`.
      The key is that path, a `/` and a last segment without `/`. */
  method ParentPath(fileName: string) returns (path: string)
    ensures '/' !in fileName ==> path == ""
    ensures '/' in fileName ==>
              |path| < |fileName| && fileName[..|path|] == path && fileName[|path|] == '/'
              && '/' !in fileName[|path| + 1..]
  {
    var parts := Split(fileName, '/');
    ghost var whole := parts;
    parts := parts[..|parts| - 1];
    path := Join(parts, '/');
    SplitCount(fileName, '/');
    if |whole| > 1 {
      ghost var last := whole[|whole| - 1];
      assert parts + [last] == whole;
      JoinSnoc(parts, '/', last);
      JoinSplit(fileName, '/');
      SplitPieces(fileName, '/');
      assert fileName == path + "/" + last;
      assert fileName[|path| + 1..] == last;
    }
  }
}
