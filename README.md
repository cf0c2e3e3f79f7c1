# S3 demo: folder listing, URL prefix and delete redirect

A model of the data handling in `demo.js`, the Express front end of a
small S3 browser. The storage service stores flat keys. The handlers turn
those keys into a folder view.

- **Grouping** (`/bucket/:bucketName/:folder?`). Each listed object's key is
  rewritten with `key.replace(folder + "/", "")`, which removes the first
  occurrence of `folder/` wherever it stands. The rewritten key is split on
  `/`. The object is then pushed onto the array `folders[label]` of a plain
  `{}` object. The label is the first piece when the key splits into more
  than one piece, and `"."` otherwise. Modules `FolderRoute` (the loop, its
  callback, the specification function `Group` and its lemmas) and
  `JsStrings` (JavaScript `split`, `join`, `indexOf` and `replace` with a
  string pattern).
- **`addToUrl`**: the prefix handed to the `filesfolder` view together with
  the folders. It is `folder + "/"` when a folder is given and empty otherwise
  (`FolderRoute.AddToUrl`).
- **Delete redirect** (`/delete/:bucketName/:fileName`). The key is split on
  `/`, the last piece is popped and the rest is joined again, giving the
  folder to return to (`DeleteRoute.ParentPath`).
- **Bucket list** (`/bucket`). The names of the listed buckets, in order
  (`BucketRoute.BucketNames`).

The listing is an input: an array of `Listed(key, meta)` records, where
`meta` is the rest of the S3 record and is passed through untouched.
`SortIntoFolders` runs the `forEach` loop over that array. It overwrites
each key in place, as the handler does, and builds the folder map. The
model follows the code in two places where a plain reading of the route
would differ:

- The rewrite is the code's first-occurrence `replace`, not a removal of a
  leading `folder/` only.
- `{}` inherits the members of `Object.prototype`. A folder label such as
  `constructor` or `toString` therefore finds a truthy inherited member
  instead of `undefined`, so no array is created. The following `push`
  throws a TypeError, which the handler catches and answers with an error
  message. `SortIntoFolders` returns this as `Failure(PushNotAFunction(label))`
  and stops at that object, as the throw does.

`Group` is the grouping built in a dictionary without inherited names.
`SortIntoFolders` equals `Group` whenever no label clashes. Otherwise it
fails at the first clash.

## Model

| member | source | states |
|---|---|---|
| JsStrings.Split | demo.js:84 | `split` yields at least one piece (the empty string gives `[""]`) |
| JsStrings.SplitPieces | demo.js:84 | no piece holds the separator; the first piece is the text before the first separator, or the whole string when there is none |
| JsStrings.SplitCount | demo.js:84-85 | a string splits into one more piece than it has separators, so `parts.length > 1` exactly when the key holds a `/` |
| JsStrings.JoinSplit | demo.js:138-145 | `join` undoes `split`: `s.split(c).join(c) == s` |
| JsStrings.SplitJoin | demo.js:138-145 | `split` undoes `join` for separator-free pieces |
| JsStrings.Join | demo.js:145 | `parts.join(sep)`: the pieces with one separator between neighbours; `JoinSplit` and `SplitJoin` state it as the inverse of `Split` |
| JsStrings.IndexOf | demo.js:83 | the index found is -1 or an index at which the pattern fits in the string (that it is the first occurrence is `IndexOfFirst`) |
| JsStrings.IndexOfFirst | demo.js:83 | `indexOf` returns the first occurrence, and -1 only when there is no occurrence at all |
| JsStrings.ReplaceFirst | demo.js:83 | `s.replace(pat, rep)` with a string pattern; its meaning is stated by `ReplaceFirstSpec` |
| JsStrings.ReplaceFirstSpec | demo.js:83 | `replace` with a string pattern removes the first occurrence wherever it stands, and leaves a string without one unchanged |
| FolderRoute.RewriteKey | demo.js:83 | `o.Key.replace(folder + "/", "")`, with `"undefined/"` as the pattern when no folder is given; stated by `RewrittenSpec` and `RewriteUnderFolder` |
| FolderRoute.Rewritten | demo.js:83 | the listed object with only its key rewritten; stated by `RewrittenSpec` |
| FolderRoute.RewrittenSpec | demo.js:83 | the object's key loses the first occurrence of `folder + "/"` (`"undefined/"` when no folder is given) or stays as it is; the rest of the object is unchanged |
| FolderRoute.RewriteUnderFolder | demo.js:83 | a key that starts with `folder/` loses exactly that leading part |
| FolderRoute.Label | demo.js:84-95 | the folder of a rewritten key: `parts[0]` when it splits into more than one piece, `"."` otherwise; stated by `LabelIsFirstSegment` |
| FolderRoute.LabelIsFirstSegment | demo.js:84-95 | a key without `/` (the empty key included) goes to `"."`; a key with a `/` goes to the text before its first `/`, which is empty for a leading `/` |
| FolderRoute.LabelOfPath | demo.js:84-86 | a folder name followed by `/` and anything else is filed under that name |
| FolderRoute.AddToUrl | demo.js:71-73 | `addToUrl` is `folder + "/"` when a folder is given and `""` otherwise |
| FolderRoute.LinkRestoresKey | demo.js:71-83 | for a key under the listed folder, `addToUrl` followed by the rewritten key is the original key |
| FolderRoute.Place | demo.js:87-95 | files one rewritten object: appended to the folder of its label, the folder created on first insertion |
| FolderRoute.Group | demo.js:80-97 | the folders the loop builds in a dictionary without inherited names, one object after another; the corrected grouping of the first finding, whose meaning is stated by `GroupSelects`, `GroupIsSelection`, `GroupNonEmpty`, `GroupKeys` and `GroupTotalSize` |
| FolderRoute.RewriteAll | demo.js:82-83 | every object is rewritten, in listing order, and only by the key rewrite |
| FolderRoute.GroupSelects | demo.js:82-97 | the folder of a label holds exactly the rewritten objects with that label, in listing order (only `push` ever adds) |
| FolderRoute.GroupIsSelection | demo.js:82-97 | the same for all labels at once, and every folder that exists holds an object, so a label with no objects has no folder |
| FolderRoute.GroupNonEmpty | demo.js:87-95 | folders are created on first insertion, so none is empty |
| FolderRoute.GroupKeys | demo.js:84-96 | a folder exists exactly for the labels of the listed objects |
| FolderRoute.Names | demo.js:87-93 | each label of the listing once, and no other |
| FolderRoute.NamesInCreationOrder | demo.js:87-93 | folders are only added behind existing ones: the names of any prefix of the listing come first, in the same order |
| FolderRoute.GroupTotalSize | demo.js:82-97 | the folders are exactly the created labels, and their sizes add up to the number of listed objects: no object lost or filed twice |
| FolderRoute.FirstClash | demo.js:87-90 | the position of the first object whose label is an inherited name of `{}`, at most the listing's length |
| FolderRoute.FirstClashSpec | demo.js:87-90 | no object before that position clashes, and the object at it does |
| FolderRoute.GroupAvoidsPrototypeNames | demo.js:87-90 | a listing without clashes yields no folder named after an inherited member |
| FolderRoute.FileObject | demo.js:82-96 | the callback rewrites the key; it then files the object by its label, creating the folder when the lookup is `undefined`, or throws when the lookup finds an inherited member |
| FolderRoute.SortIntoFolders | demo.js:80-101 | the loop gives the grouping of the whole listing, or the TypeError of the first clashing object; the array holds the rewritten objects up to and including that object and the original ones after it |
| FolderRoute.StripFolderPrefix | demo.js:83 | intended rewrite: the result is a trailing part of the key, differs from the key only when a folder is given and the key starts with `folder/`, and then `addToUrl` plus the result is the key again |
| FolderRoute.SubfolderObject | demo.js:83-86 | an object of subfolder `name` listed in folder `parent` is rewritten to `name/...` and labelled `name` |
| FolderRoute.PrototypeFolderFails | demo.js:87-90 | a subfolder named after any inherited member of `{}` (such as `constructor`), in any folder, makes the listing fail at once, while the dictionary grouping files it normally |
| FolderRoute.UndefinedFolderStripped | demo.js:83 | at the bucket root, `undefined/x` is filed as the plain file `x`, and `addToUrl` (empty) followed by that name is not the key; the intended rewrite keeps the key |
| FolderRoute.InnerOccurrenceStripped | demo.js:83 | listing folder `a` turns `ab/a/...` into `ab/...`, which is not a trailing part of the key; the intended rewrite keeps the key |
| DeleteRoute.ParentPath | demo.js:138-145 | the redirect folder is `""` for a key without `/`; otherwise it is the text before the key's last `/`, with only a `/`-free name after it |
| BucketRoute.BucketNames | demo.js:48 | one name per bucket, in the listing's order |

## Left out

- All calls to the storage service are outside the model: `listBuckets`, `listObjects` (including how `Prefix` filters), `getObject`, `deleteObject`, `getSignedUrl` and the `multer-s3` upload. The listing is an input sequence.
- Express routing, EJS rendering, CORS, the redirect response, `encodeURIComponent` and `app.listen` are HTTP plumbing and are not modelled.
- The share-link expiry arithmetic depends on the clock and on floating-point division.
- server.js, apiversion.js and views/upload.js are not part of this model. Each handler there is one storage call plus response formatting, or browser event handling.
- Client construction from environment variables is configuration.
- `Object.prototype` members are modelled as a fixed set of the twelve standard names. Names added by other code at run time are not modelled.
- The order in which the view iterates the folder object's keys is not modelled. The model's folders are a `map`; `Names` with `NamesInCreationOrder` gives the creation order.
- The `filesfolder` template is not part of this model. How it builds links from `addToUrl` and the rewritten keys is not stated by the source; `LinkRestoresKey` and `StripFolderPrefix` assume a link is `addToUrl` followed by the key.
- Strings are sequences of characters. JavaScript's UTF-16 code units and surrogate pairs are not modelled.
- `$` patterns in a replacement string are not modelled; the handler's replacement is the empty string.
- Object identity is modelled by value. The array element and the folder entry are one object in JavaScript (the same rewritten record stored twice here), so aliasing is not modelled.
- The grouping is stated for the code as written. A plain reading of the route would strip only a leading `folder/`; the code removes the first occurrence anywhere, and the model follows the code.

## Findings

| source | as written | input that shows it | evidently intended | confidence | as-written member | corrected member |
|---|---|---|---|---|---|---|
| demo.js:87-90 | `folders` is `{}`, so `!folders[name]` is false for inherited names and `push` throws | any key `p/constructor/x` listed in folder `p` (likewise `toString`, `valueOf`, `__proto__`, ...) | a dictionary without inherited names, filing the object under `constructor` | high, not executed | FolderRoute.PrototypeFolderFails | FolderRoute.Group |
| demo.js:83 | without a folder the pattern is `"undefined/"`, which is cut out of keys | key `undefined/x.txt` at the bucket root | no rewrite when no folder is given | high, not executed | FolderRoute.UndefinedFolderStripped | FolderRoute.StripFolderPrefix |
| demo.js:83 | `replace` removes the first `folder/` anywhere in the key | key `ab/a/x` listed with folder `a` (its listing prefix has no trailing `/`) | remove `folder/` only where it leads the key | medium, not executed | FolderRoute.InnerOccurrenceStripped | FolderRoute.StripFolderPrefix |
