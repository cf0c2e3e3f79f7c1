/** The `/bucket/:bucketName/:folder?` handler of demo.js: it lists a bucket
    (optionally under a folder prefix), rewrites each listed object's key, and
    files every object under a folder label for the file/folder view. The
    listing itself comes from the storage service and is an input here. */
module FolderRoute {
  import opened Wrappers
  import opened JsStrings

  /** One entry of the listing's `Contents`: its `Key` and the rest of the
      record (size, last-modified time, entity tag, ...), which the handler
      passes through untouched. */
  datatype Listed<M> = Listed(key: string, meta: M)

  /** The `folders` object handed to the view: folder label to the objects
      filed under it, in listing order. */
  type Folders<M> = map<string, seq<Listed<M>>>

  /** The TypeError thrown when `folders[label].push` finds an inherited
      member of `Object.prototype` instead of an array; the handler catches it
      and answers with an error message instead of the view. */
  datatype ListError = PushNotAFunction(name: string)

  /** The label of the group of plain files (keys with no further `/`). */
  const FileGroup: string := "."

  /** The property names that a fresh `{}` already answers with an inherited,
      truthy member of `Object.prototype`. */
  const ObjectPrototypeNames: set<string> := {
    "constructor", "__proto__", "hasOwnProperty", "isPrototypeOf",
    "propertyIsEnumerable", "toLocaleString", "toString", "valueOf",
    "__defineGetter__", "__defineSetter__", "__lookupGetter__", "__lookupSetter__"
  }

  /** `folder + "/"`: an absent route parameter is `undefined`, which string
      concatenation turns into the text "undefined". */
  function Pattern(folder: Option<string>): string
  {
    (if folder.Some? then folder.value else "undefined") + "/"
  }

  /** The key rewrite `o.Key.replace(folder + "/", "")`: removes the FIRST
      occurrence of the pattern wherever it stands, not only a leading one. */
  function RewriteKey(folder: Option<string>, key: string): string
  {
    ReplaceFirst(key, Pattern(folder), "")
  }

  /** The listed object with its key rewritten and everything else kept. */
  function Rewritten<M>(folder: Option<string>, o: Listed<M>): Listed<M>
  {
    o.(key := RewriteKey(folder, o.key))
  }

  /** The rewrite removes the first occurrence of `folder/`, wherever it
      stands, leaves a key without one alone, and changes nothing but the key. */
  lemma RewrittenSpec<M>(folder: Option<string>, o: Listed<M>, i: nat)
    ensures Rewritten(folder, o).meta == o.meta
    ensures (forall j :: 0 <= j <= |o.key| ==> !OccursAt(o.key, Pattern(folder), j)) ==>
              Rewritten(folder, o).key == o.key
    ensures OccursAt(o.key, Pattern(folder), i) && (forall j :: 0 <= j < i ==> !OccursAt(o.key, Pattern(folder), j)) ==>
              Rewritten(folder, o).key == o.key[..i] + o.key[i + |Pattern(folder)|..]
  {
    ReplaceFirstSpec(o.key, Pattern(folder), "", i);
  }

  /** The folder label of a rewritten key: its first `/`-piece when it splits
      into more than one piece, the file group otherwise. */
  function Label(key: string): string
  {
    var parts := Split(key, '/');
    if |parts| > 1 then parts[0] else FileGroup
  }

  /** A key without `/` (the empty key included) is a plain file; a key with a
      `/` is filed under the text before its first `/`, which is empty for a
      leading `/`. */
  lemma LabelIsFirstSegment(key: string)
    ensures '/' !in key ==> Label(key) == FileGroup
    ensures '/' in key ==> |Label(key)| < |key| && key[..|Label(key)|] == Label(key)
                           && key[|Label(key)|] == '/' && '/' !in Label(key)
  {
    SplitCount(key, '/');
    SplitPieces(key, '/');
  }

  /** A separator-free folder name followed by `/` is the label. */
  lemma LabelOfPath(name: string, rest: string)
    requires '/' !in name
    ensures Label(name + "/" + rest) == name
  {
    SplitAfterPiece(name, '/', rest);
  }

  /** A key listed under the folder loses exactly its leading `folder/`. */
  lemma RewriteUnderFolder(folder: Option<string>, key: string)
    requires Pattern(folder) <= key
    ensures RewriteKey(folder, key) == key[|Pattern(folder)|..]
  {
    assert OccursAt(key, Pattern(folder), 0);
    ReplaceFirstSpec(key, Pattern(folder), "", 0);
  }

  /** The prefix handed to the view as `addToUrl`. */
  function UrlPrefix(folder: Option<string>): string
  {
    if folder.Some? then Pattern(folder) else ""
  }

  /** `addToUrl`: empty by default, `folder + "/"` when a folder is given. */
  method AddToUrl(folder: Option<string>) returns (addToUrl: string)
    ensures addToUrl == UrlPrefix(folder)
  {
    addToUrl := "";
    if folder.Some? {
      addToUrl := folder.value + "/";
    }
  }

  /** For a key under the listed folder, `addToUrl` followed by the
      rewritten key is the listed key again. */
  lemma LinkRestoresKey(folder: Option<string>, key: string)
    requires folder.Some? && Pattern(folder) <= key
    ensures UrlPrefix(folder) + RewriteKey(folder, key) == key
  {
    RewriteUnderFolder(folder, key);
  }

  /** Files one rewritten object: appended to its folder, the folder created
      on first insertion. */
  function Place<M>(fs: Folders<M>, o: Listed<M>): Folders<M>
  {
    var name := Label(o.key);
    if name in fs then fs[name := fs[name] + [o]] else fs[name := [o]]
  }

  /** The folders built from a listing, one object after another, with a
      dictionary that knows no inherited names. */
  function Group<M>(folder: Option<string>, es: seq<Listed<M>>): Folders<M>
  {
    if |es| == 0 then map[]
    else Place(Group(folder, es[..|es| - 1]), Rewritten(folder, es[|es| - 1]))
  }

  /** Listing one more object files it after the others. */
  lemma GroupSnoc<M>(folder: Option<string>, es: seq<Listed<M>>, e: Listed<M>)
    ensures Group(folder, es + [e]) == Place(Group(folder, es), Rewritten(folder, e))
  {
    assert (es + [e])[..|es|] == es;
  }

  /** Every listed object with its key rewritten, in listing order. */
  function RewriteAll<M>(folder: Option<string>, es: seq<Listed<M>>): (os: seq<Listed<M>>)
    ensures |os| == |es|
    ensures forall i :: 0 <= i < |es| ==> os[i] == Rewritten(folder, es[i])
  {
    if |es| == 0 then []
    else RewriteAll(folder, es[..|es| - 1]) + [Rewritten(folder, es[|es| - 1])]
  }

  /** Rewriting one more object appends it, rewritten. */
  lemma RewriteAllSnoc<M>(folder: Option<string>, es: seq<Listed<M>>, e: Listed<M>)
    ensures RewriteAll(folder, es + [e]) == RewriteAll(folder, es) + [Rewritten(folder, e)]
  {
    assert (es + [e])[..|es|] == es;
  }

  /** Overwriting the first element after a prefix. */
  lemma ReplaceNext<T>(done: seq<T>, rest: seq<T>, x: T)
    requires |rest| > 0
    ensures (done + rest)[|done| := x] == done + [x] + rest[1..]
  {
  }

  /** The objects of `os` whose label is `label`, in their order in `os`. */
  function Selected<M>(os: seq<Listed<M>>, name: string): seq<Listed<M>>
  {
    if |os| == 0 then []
    else Selected(os[..|os| - 1], name) + (if Label(os[|os| - 1].key) == name then [os[|os| - 1]] else [])
  }

  /** The objects filed under `label`, none when there is no such folder. */
  function Lookup<M>(fs: Folders<M>, name: string): seq<Listed<M>>
  {
    if name in fs then fs[name] else []
  }

  /** The folder of one label holds exactly the rewritten objects that carry
      it, in listing order. */
  lemma {:induction false} GroupSelects<M>(folder: Option<string>, es: seq<Listed<M>>, name: string)
    ensures Lookup(Group(folder, es), name) == Selected(RewriteAll(folder, es), name)
  {
    if |es| > 0 {
      var init := es[..|es| - 1];
      GroupSelects(folder, init, name);
      var os := RewriteAll(folder, es);
      assert os[..|os| - 1] == RewriteAll(folder, init);
    }
  }

  /** Each folder holds exactly the rewritten objects that carry its label,
      in listing order; a label without objects has no folder. */
  lemma {:induction false} GroupIsSelection<M>(folder: Option<string>, es: seq<Listed<M>>)
    ensures forall name :: Lookup(Group(folder, es), name) == Selected(RewriteAll(folder, es), name)
    ensures forall name :: name in Group(folder, es) ==> Group(folder, es)[name] != []
  {
    GroupNonEmpty(folder, es);
    forall name {
      GroupSelects(folder, es, name);
    }
  }

  /** The labels of the listed objects, after the key rewrite. */
  function Labels<M>(folder: Option<string>, es: seq<Listed<M>>): set<string>
  {
    set i | 0 <= i < |es| :: Label(RewriteKey(folder, es[i].key))
  }

  /** Filing an object adds its label to the folders and empties none. */
  lemma PlaceKeys<M>(fs: Folders<M>, o: Listed<M>)
    ensures Place(fs, o).Keys == fs.Keys + {Label(o.key)}
    ensures forall name :: name in fs && fs[name] != [] ==> Place(fs, o)[name] != []
    ensures Place(fs, o)[Label(o.key)] != []
  {
  }

  /** Listing one more object adds its label to the labels. */
  lemma LabelsSnoc<M>(folder: Option<string>, es: seq<Listed<M>>)
    requires |es| > 0
    ensures Labels(folder, es) == Labels(folder, es[..|es| - 1]) + {Label(Rewritten(folder, es[|es| - 1]).key)}
  {
    var init := es[..|es| - 1];
    assert forall i :: 0 <= i < |init| ==> init[i] == es[i];
  }

  /** No folder is empty. */
  lemma {:induction false} GroupNonEmpty<M>(folder: Option<string>, es: seq<Listed<M>>)
    ensures forall name :: name in Group(folder, es) ==> Group(folder, es)[name] != []
  {
    if |es| > 0 {
      var init := es[..|es| - 1];
      GroupNonEmpty(folder, init);
      PlaceKeys(Group(folder, init), Rewritten(folder, es[|es| - 1]));
    }
  }

  /** A folder exists exactly for the labels of the listed objects. */
  lemma {:induction false} GroupKeys<M>(folder: Option<string>, es: seq<Listed<M>>)
    ensures Group(folder, es).Keys == Labels(folder, es)
  {
    if |es| > 0 {
      var init := es[..|es| - 1];
      GroupKeys(folder, init);
      PlaceKeys(Group(folder, init), Rewritten(folder, es[|es| - 1]));
      LabelsSnoc(folder, es);
    }
  }

  /** The folder labels in the order in which the folders were created: each
      label of the listing once, and no other. */
  function Names<M>(folder: Option<string>, es: seq<Listed<M>>): (ns: seq<string>)
    ensures forall i, j :: 0 <= i < j < |ns| ==> ns[i] != ns[j]
    ensures forall name :: name in ns <==> name in Labels(folder, es)
  {
    if |es| == 0 then []
    else
      var ns := Names(folder, es[..|es| - 1]);
      var name := Label(RewriteKey(folder, es[|es| - 1].key));
      LabelsSnoc(folder, es);
      if name in ns then ns else ns + [name]
  }

  /** Folders are only ever added behind the existing ones: the labels of any
      prefix of the listing come first in `Names`, in the same order. */
  lemma {:induction false} NamesInCreationOrder<M>(folder: Option<string>, es: seq<Listed<M>>, k: nat)
    requires k <= |es|
    ensures Names(folder, es[..k]) <= Names(folder, es)
  {
    if k < |es| {
      var init := es[..|es| - 1];
      NamesInCreationOrder(folder, init, k);
      assert init[..k] == es[..k];
    } else {
      assert es[..k] == es;
    }
  }

  /** The number of objects filed under the folders `names`, together. */
  function SumSizes<M>(fs: Folders<M>, names: seq<string>): nat
  {
    if |names| == 0 then 0
    else SumSizes(fs, names[..|names| - 1]) + |Lookup(fs, names[|names| - 1])|
  }

  /** Filing one object adds one to the count of the folders that include its
      label, and nothing to the count of the others. */
  lemma {:induction false} SumSizesPlace<M>(fs: Folders<M>, o: Listed<M>, names: seq<string>)
    requires forall i, j :: 0 <= i < j < |names| ==> names[i] != names[j]
    ensures SumSizes(Place(fs, o), names) == SumSizes(fs, names) + (if Label(o.key) in names then 1 else 0)
  {
    if |names| > 0 {
      var init := names[..|names| - 1];
      SumSizesPlace(fs, o, init);
      assert names == init + [names[|names| - 1]];
    }
  }

  /** The folders are exactly the labels in `Names`, and together they hold
      as many objects as were listed: no object is lost and none is filed
      twice. */
  lemma {:induction false} GroupTotalSize<M>(folder: Option<string>, es: seq<Listed<M>>)
    ensures forall name :: name in Group(folder, es) <==> name in Names(folder, es)
    ensures SumSizes(Group(folder, es), Names(folder, es)) == |es|
  {
    if |es| > 0 {
      var init := es[..|es| - 1];
      var o := Rewritten(folder, es[|es| - 1]);
      var g, ns := Group(folder, init), Names(folder, init);
      GroupTotalSize(folder, init);
      SumSizesPlace(g, o, ns);
      if Label(o.key) !in ns {
        var ns' := ns + [Label(o.key)];
        assert ns'[..|ns'| - 1] == ns;
      }
    }
  }

  /** The listed object whose label is an inherited name of a plain object. */
  predicate Clashes<M>(folder: Option<string>, o: Listed<M>)
  {
    Label(RewriteKey(folder, o.key)) in ObjectPrototypeNames
  }

  /** The index of the first object whose label clashes, `|es|` if none does. */
  function FirstClash<M>(folder: Option<string>, es: seq<Listed<M>>): (n: nat)
    ensures n <= |es|
  {
    if |es| == 0 || Clashes(folder, es[0]) then 0 else 1 + FirstClash(folder, es[1..])
  }

  /** No object before the first clash clashes, and the first clash does. */
  lemma {:induction false} FirstClashSpec<M>(folder: Option<string>, es: seq<Listed<M>>)
    ensures forall j :: 0 <= j < FirstClash(folder, es) ==> !Clashes(folder, es[j])
    ensures FirstClash(folder, es) < |es| ==> Clashes(folder, es[FirstClash(folder, es)])
  {
    if |es| > 0 && !Clashes(folder, es[0]) {
      FirstClashSpec(folder, es[1..]);
      forall j | 1 <= j < FirstClash(folder, es)
        ensures !Clashes(folder, es[j])
      {
        assert es[j] == es[1..][j - 1];
      }
    }
  }

  /** How many objects the loop rewrites before it stops: all of them, or up
      to and including the one that makes `push` throw. */
  function Processed<M>(folder: Option<string>, es: seq<Listed<M>>): nat
  {
    if FirstClash(folder, es) < |es| then FirstClash(folder, es) + 1 else |es|
  }

  /** Past a clash-free prefix, the next object clashes exactly when it is
      the first clash. */
  lemma FirstClashAt<M>(folder: Option<string>, es: seq<Listed<M>>, i: nat)
    requires i < |es| && FirstClash(folder, es) >= i
    ensures Clashes(folder, es[i]) <==> FirstClash(folder, es) == i
  {
    FirstClashSpec(folder, es);
  }

  /** The `forEach` callback: rewrites the object's key, then files it in
      the plain object `folders`. Looking up `folders[name]` gives an own
      array, an inherited member of `Object.prototype` (truthy, and without
      `push`), or `undefined`; only `undefined` makes a new folder. */
  method FileObject<M>(folder: Option<string>, folders: Folders<M>, o: Listed<M>)
    returns (rewritten: Listed<M>, result: Result<Folders<M>, ListError>)
    requires forall name :: name in folders ==> name !in ObjectPrototypeNames
    ensures rewritten == Rewritten(folder, o)
    ensures result == if Clashes(folder, o) then Failure(PushNotAFunction(Label(rewritten.key)))
                      else Success(Place(folders, rewritten))
  {
    rewritten := o.(key := ReplaceFirst(o.key, Pattern(folder), ""));
    var parts := Split(rewritten.key, '/');
    var fs := folders;
    if |parts| > 1 {
      var name := parts[0];
      if name !in fs && name !in ObjectPrototypeNames {
        fs := fs[name := []];
      }
      if name in ObjectPrototypeNames {
        return rewritten, Failure(PushNotAFunction(name));
      }
      fs := fs[name := fs[name] + [rewritten]];
      assert fs == Place(folders, rewritten) by {
        assert Label(rewritten.key) == name;
        assert fs == folders[name := Lookup(folders, name) + [rewritten]];
        assert [] + [rewritten] == [rewritten];
      }
    } else {
      if FileGroup !in fs {
        fs := fs[FileGroup := []];
      }
      fs := fs[FileGroup := fs[FileGroup] + [rewritten]];
      assert fs == Place(folders, rewritten) by {
        assert Label(rewritten.key) == FileGroup;
        assert fs == folders[FileGroup := Lookup(folders, FileGroup) + [rewritten]];
        assert [] + [rewritten] == [rewritten];
      }
    }
    result := Success(fs);
  }

  /** A grouping that succeeded holds no inherited name as a folder. */
  lemma {:induction false} GroupAvoidsPrototypeNames<M>(folder: Option<string>, es: seq<Listed<M>>)
    requires FirstClash(folder, es) == |es|
    ensures forall name :: name in Group(folder, es) ==> name !in ObjectPrototypeNames
  {
    if |es| > 0 {
      var init := es[..|es| - 1];
      FirstClashPrefix(folder, es, |es| - 1);
      FirstClashSpec(folder, es);
      GroupAvoidsPrototypeNames(folder, init);
      PlaceKeys(Group(folder, init), Rewritten(folder, es[|es| - 1]));
    }
  }

  /** A prefix free of clashes has no clash of its own. */
  lemma FirstClashPrefix<M>(folder: Option<string>, es: seq<Listed<M>>, n: nat)
    requires n <= |es| && FirstClash(folder, es) >= n
    ensures FirstClash(folder, es[..n]) == n
  {
    FirstClashSpec(folder, es);
    assert forall j :: 0 <= j < n ==> es[..n][j] == es[j];
    FirstClashSpec(folder, es[..n]);
  }

  /** The state of the grouping loop after the first `i` objects were filed
      without a clash: the folders group them, they were rewritten in place and
      the rest of the listing is untouched. */
  ghost predicate FiledUpTo<M>(folder: Option<string>, es: seq<Listed<M>>, i: nat,
                               folders: Folders<M>, objs: seq<Listed<M>>)
  {
    i <= |es| && FirstClash(folder, es) >= i && folders == Group(folder, es[..i])
    && objs == RewriteAll(folder, es[..i]) + es[i..]
  }

  /** Before the first clash, the folders built so far hold no inherited name. */
  lemma FiledAvoidsPrototypeNames<M>(folder: Option<string>, es: seq<Listed<M>>, i: nat,
                                     folders: Folders<M>, objs: seq<Listed<M>>)
    requires i < |es| && FiledUpTo(folder, es, i, folders, objs)
    ensures forall name :: name in folders ==> name !in ObjectPrototypeNames
  {
    FirstClashPrefix(folder, es, i);
    GroupAvoidsPrototypeNames(folder, es[..i]);
  }

  /** Storing the next rewritten object in place extends the rewritten prefix. */
  lemma FiledRewrite<M>(folder: Option<string>, es: seq<Listed<M>>, i: nat,
                        folders: Folders<M>, objs: seq<Listed<M>>)
    requires i < |es| && FiledUpTo(folder, es, i, folders, objs)
    ensures objs[i] == es[i]
    ensures objs[i := Rewritten(folder, es[i])] == RewriteAll(folder, es[..i + 1]) + es[i + 1..]
  {
    assert objs[i] == es[i..][0];
    assert es[..i] + [es[i]] == es[..i + 1];
    assert es[i..][1..] == es[i + 1..];
    ReplaceNext(RewriteAll(folder, es[..i]), es[i..], Rewritten(folder, es[i]));
    RewriteAllSnoc(folder, es[..i], es[i]);
  }

  /** Filing the next object extends the grouping by it. */
  lemma FiledGroup<M>(folder: Option<string>, es: seq<Listed<M>>, i: nat,
                      folders: Folders<M>, objs: seq<Listed<M>>)
    requires i < |es| && FiledUpTo(folder, es, i, folders, objs)
    ensures Group(folder, es[..i + 1]) == Place(folders, Rewritten(folder, es[i]))
  {
    assert es[..i] + [es[i]] == es[..i + 1];
    GroupSnoc(folder, es[..i], es[i]);
  }

  /** One turn of the grouping loop: the folders built so far hold no inherited
      name; a clash of the next object is the first clash, and the loop's
      outcome and final listing are then reached; otherwise filing the object
      extends the loop state by it. */
  lemma SortStep<M>(folder: Option<string>, es: seq<Listed<M>>, i: nat,
                    folders: Folders<M>, objs: seq<Listed<M>>)
    requires i < |es| && FiledUpTo(folder, es, i, folders, objs)
    ensures objs[i] == es[i]
    ensures forall name :: name in folders ==> name !in ObjectPrototypeNames
    ensures Clashes(folder, es[i]) ==>
              FirstClash(folder, es) == i && Processed(folder, es) == i + 1
              && objs[i := Rewritten(folder, es[i])] == RewriteAll(folder, es[..i + 1]) + es[i + 1..]
    ensures !Clashes(folder, es[i]) ==>
              FiledUpTo(folder, es, i + 1, Place(folders, Rewritten(folder, es[i])),
                        objs[i := Rewritten(folder, es[i])])
  {
    FiledAvoidsPrototypeNames(folder, es, i, folders, objs);
    FiledRewrite(folder, es, i, folders, objs);
    FiledGroup(folder, es, i, folders, objs);
    FirstClashAt(folder, es, i);
  }

  /** A loop that filed the whole listing succeeded with the grouping of it. */
  lemma SortDone<M>(folder: Option<string>, es: seq<Listed<M>>, folders: Folders<M>, objs: seq<Listed<M>>)
    requires FiledUpTo(folder, es, |es|, folders, objs)
    ensures FirstClash(folder, es) == |es| && Processed(folder, es) == |es|
    ensures folders == Group(folder, es)
    ensures objs == RewriteAll(folder, es) + es[|es|..]
  {
    assert es[..|es|] == es;
  }

  /** The grouping loop of the handler: calls the callback on each listed
      object in order, storing the rewritten object back in place. The result
      is the grouping of the whole listing, or the TypeError raised by the
      first object whose label is an inherited name of `{}`; the loop stops
      there, after rewriting that object's key. */
  method SortIntoFolders<M>(folder: Option<string>, objects: array<Listed<M>>)
    returns (result: Result<Folders<M>, ListError>)
    modifies objects
    ensures var es := old(objects[..]);
            var n := FirstClash(folder, es);
            result == if n < |es| then Failure(PushNotAFunction(Label(RewriteKey(folder, es[n].key))))
                      else Success(Group(folder, es))
    ensures var es, n := old(objects[..]), Processed(folder, old(objects[..]));
            objects[..] == RewriteAll(folder, es[..n]) + es[n..]
  {
    ghost var es := objects[..];
    var folders: Folders<M> := map[];
    var i := 0;
    while i < objects.Length
      invariant objects.Length == |es|
      invariant FiledUpTo(folder, es, i, folders, objects[..])
    {
      ghost var objs := objects[..];
      SortStep(folder, es, i, folders, objs);
      var o, filed := FileObject(folder, folders, objects[i]);
      objects[i] := o;
      assert objects[..] == objs[i := o];
      if filed.Failure? {
        return Failure(filed.error);
      }
      folders := filed.value;
      i := i + 1;
    }
    SortDone(folder, es, folders, objects[..]);
    return Success(folders);
  }

  /** The evidently intended key rewrite: strips `folder/` only where it leads
      the key, and leaves every other key alone, in particular every key when
      no folder is given. The name it gives is a trailing part of the key, and
      `addToUrl` followed by it is the key again. */
  function StripFolderPrefix(folder: Option<string>, key: string): (r: string)
    ensures |r| <= |key| && key[|key| - |r|..] == r
    ensures r != key ==> folder.Some? && Pattern(folder) <= key
    ensures folder.None? ==> r == key
    ensures folder.None? || Pattern(folder) <= key ==> UrlPrefix(folder) + r == key
  {
    if folder.Some? && Pattern(folder) <= key then key[|Pattern(folder)|..] else key
  }

  /** An object of subfolder `name` listed in folder `parent` is rewritten to
      `name/...` and filed under `name`. */
  lemma SubfolderObject<M>(parent: string, name: string, rest: string, m: M)
    requires '/' !in name
    ensures Rewritten(Some(parent), Listed(parent + "/" + name + "/" + rest, m)) == Listed(name + "/" + rest, m)
    ensures Label(name + "/" + rest) == name
  {
    var key := parent + "/" + name + "/" + rest;
    assert key == Pattern(Some(parent)) + (name + "/" + rest);
    RewriteUnderFolder(Some(parent), key);
    LabelOfPath(name, rest);
  }

  /** Inside any folder, a subfolder named after an inherited member of `{}`
      (`constructor`, `toString`, ...) makes the whole listing fail, while the
      dictionary grouping files it normally. */
  lemma PrototypeFolderFails<M>(parent: string, name: string, rest: string, m: M)
    requires name in ObjectPrototypeNames && '/' !in name
    ensures var es := [Listed(parent + "/" + name + "/" + rest, m)];
            FirstClash(Some(parent), es) == 0
            && Group(Some(parent), es) == map[name := [Listed(name + "/" + rest, m)]]
  {
    SubfolderObject(parent, name, rest, m);
    assert [Listed(parent + "/" + name + "/" + rest, m)][..0] == [];
  }

  /** At the bucket root, `undefined/` is cut out of a key: the object
      `undefined/x.txt` is filed as the plain file `x.txt`, and `addToUrl`
      followed by that name is not the key. The intended rewrite leaves it
      alone. */
  lemma UndefinedFolderStripped<M>(name: string, m: M)
    requires '/' !in name
    ensures var key := "undefined/" + name;
            RewriteKey(None, key) == name
            && Group(None, [Listed(key, m)]) == map[FileGroup := [Listed(name, m)]]
            && UrlPrefix(None) + RewriteKey(None, key) != key
            && StripFolderPrefix(None, key) == key
  {
    var key := "undefined/" + name;
    assert key == Pattern(None) + name;
    RewriteUnderFolder(None, key);
    assert key[|Pattern(None)|..] == name;
    LabelIsFirstSegment(name);
    assert [Listed(key, m)][..0] == [];
  }

  /** Listing folder `a` also returns `ab/a/...` (the listing prefix has no
      trailing `/`); the rewrite cuts the inner `a/`, and the name it shows is
      not a trailing part of the key. The intended rewrite keeps the key. */
  lemma InnerOccurrenceStripped(rest: string)
    ensures var key := "ab/a/" + rest;
            RewriteKey(Some("a"), key) == "ab/" + rest
            && key[|key| - |"ab/" + rest|..] != "ab/" + rest
            && StripFolderPrefix(Some("a"), key) == key
  {
    var key := "ab/a/" + rest;
    var pat := Pattern(Some("a"));
    assert pat == "a/";
    assert key[3..5] == pat;
    assert OccursAt(key, pat, 3);
    assert key[0] == 'a' && key[1] == 'b' && key[2] == '/';
    assert forall j :: 0 <= j < 3 ==> !OccursAt(key, pat, j);
    ReplaceFirstSpec(key, pat, "", 3);
    assert key[..3] + "" + key[5..] == "ab/" + rest;
    assert key[|key| - |"ab/" + rest|..][0] == '/';
  }
}
