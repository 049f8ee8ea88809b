# webos-ipk `build.py` in Dafny

`build.py` packages a webOS application directory into an `.ipk` file. An
`.ipk` is a Debian-style `ar` archive holding three members, in this order:

- `debian-binary`, holding `2.0\n`;
- `control.tar.gz`, a gzip'd tar with a single member `control`, the
  RFC 822-style control file;
- `data.tar.gz`, a gzip'd tar holding every file of the application tree
  under `usr/palm/applications/{id}/`, followed by
  `usr/palm/packages/{id}/packageinfo.json`.

The control file carries an `Installed-Size`. It is calc_size's estimate
of the tree, plus six directories' worth for the install prefixes, plus
the length of the package-info document.

The model follows the source file's own split between pure and imperative
code:

- `base.dfy` (module `Base`): bytes, `Option`, `Result`, and the error
  kinds the code raises. These are KeyError on a missing manifest field,
  the duplicate-keyword TypeError of `str.format`, and the "Unable to
  determine size" ValueError.
- `text.dfy` (module `Text`): the Python string primitives the packager
  relies on. These are `str.split`/`str.join` on one character,
  `str.replace`, `str(int)`, `posixpath.join`, and UTF-8 encoding with its
  decoder. Each comes with its inverse or an invariant.
- `json.dfy` (module `Json`): the string escaping of
  `json.dumps(..., ensure_ascii=True)` and a reader that undoes it.
- `metadata.dfy` (module `Metadata`): `gen_filename`, `gen_control` and
  `gen_packageinfo`. These are pure functions of the manifest, and for
  each there is a lemma reading the generated document back.
- `size_estimate.dfy` (module `SizeEstimate`):
  - the application tree is a value (`Entry`), and `os.walk` is a function
    listing it top-down;
  - `calc_size` is a method with the source's nested loops over that
    listing, proved equal to DIRECTORY_SIZE × (directories strictly below
    the root) + (bytes of every file).
- `archive.dfy` (module `Archive`):
  - the archives are classes whose `members` sequence the writers append
    to;
  - `ar_addfile` and `tar_addfile` are methods, proved against the function
    `TarAppend` that says what `tar_addfile` appends;
  - the payload of both writers (str, bytes or stream) is a datatype, and
    the size resolution both writers share is a function.
  - `TarAppend` itself is proved to:
    - keep the name of every ancestor of a member ahead of that member;
    - never write a directory name that is already present;
    - add only the file member as a regular file.
- `package.dfy` (module `Package`):
  - `build` is a method that opens the ar archive, writes `debian-binary`,
    then the control tar, then the data tar;
  - its contract gives the exact member list written, or the error and
    what was written before it;
  - lemmas state what the two tars contain and how the Installed-Size
    accounts for the data tar.

Some consequences of `build.py` as written, each proved in the model:

- calc_size gives zero not only for an empty tree but also for a tree
  that holds nothing but empty files (`SizeEstimate.EstimateZero`).
- `Installed-Size` counts bytes: DIRECTORY_SIZE is 4096 per directory and
  file sizes are `st_size` (`Package.InstalledSizeAccounts`).
- `gen_control` fails not only on a missing field. A manifest with its own
  `size` field makes `CONTROL_TEMPLATE.format(size=size, **appinfo)` fail
  with a duplicate keyword, and by then the output already holds
  `debian-binary` (`Package.Build`).

## Model

| member | source | states |
|---|---|---|
| Text.JoinSplit | build.py:143-146 | joining the pieces of `name.split("/")` with "/" gives the name back |
| Text.SplitJoin | build.py:143-146 | splitting a "/"-join of pieces without "/" gives those pieces back |
| Text.Split | build.py:143 | `str.split` on one character gives at least one piece, and no piece holds the separator |
| Text.Join | build.py:146 | `"/".join(parts)`; JoinSplit and SplitJoin make it the inverse of Split |
| Text.ReplaceChar | build.py:140 | `name.replace(os.path.sep, "/")` keeps the length, turns every separator into "/" and keeps every other character |
| Text.ReplaceCrlf | build.py:71 | `replace("\r\n", "\n")` never makes the text longer |
| Text.ReplaceCrlfOnlyDropsCr | build.py:71 | `replace("\r\n", "\n")` only removes carriage returns: the text minus its CRs is unchanged and it never grows |
| Text.ReplaceCrlfWithoutCr | build.py:76 | a text without CR is left exactly as it is |
| Text.ReplaceCrlfSplice | build.py:76 | each CRLF becomes one LF where it stands, and the text on either side is replaced on its own |
| Text.ReplaceCrlfKeepsLoneCr | build.py:76 | a CR that is not directly followed by LF is kept: "\r\r\n" becomes "\r\n" |
| Text.Decimal | build.py:75 | `str(size)` is a non-empty string of digits without a leading zero |
| Text.DecimalInjective | build.py:75 | different sizes are written as different digit strings |
| Text.DecimalRoundTrip | build.py:75 | the digits written for a size read back as that size |
| Text.PosixJoin | build.py:202 | `os.path.join(a, b)` always ends with `b` |
| Text.PosixJoinIsJoin | build.py:202 | below a directory without a trailing "/", joining a relative part is the "/"-join of the two parts |
| Text.PosixJoinAbsoluteOrEmpty | build.py:202 | an absolute second part, or an empty first part, gives the second part unchanged |
| Text.Utf8RoundTrip | build.py:76 | decoding `encode("utf-8")` gives back every string |
| Text.Utf8Ascii | build.py:71 | ASCII text encodes to one byte per character, with the same code |
| Text.Utf8 | build.py:76 | UTF-8 encoding writes between one and four bytes per character |
| Json.Escape | build.py:69 | the escaped body of a JSON string is ASCII and holds no line break, whatever the value |
| Json.EscapeChar | build.py:69 | a character is escaped as ASCII without line breaks, and it stands for itself only when it is printable ASCII other than `"` and `\` |
| Json.UnescapeEscapeChar | build.py:69 | the reader takes back exactly the escape of one character and yields that character |
| Json.Hex4RoundTrip | build.py:69 | the four hex digits of a `\uXXXX` escape read back as the code unit |
| Json.EscapeRoundTrip | build.py:69 | a JSON string reader recovers every value from its `json.dumps` escaping, including `\uXXXX` and surrogate pairs |
| Metadata.FirstMissing | build.py:62-68 | None exactly when every key is present; otherwise the first absent key in indexing order |
| Metadata.GenFilename | build.py:57-58 | KeyError on a missing id, then version; otherwise the name is exactly id, "_", version, "_all.ipk" |
| Metadata.GenControl | build.py:74-76 | succeeds exactly when the manifest has id and version and no `size` field; a `size` field fails first (duplicate keyword), then a missing id, then a missing version |
| Metadata.GenControlDecodes | build.py:74-76 | the control bytes are the UTF-8 encoding of the filled template with "\r\n" replaced |
| Metadata.ControlReadBack | build.py:16-26 | for single-line id and version, the control file decodes to the template's ten lines, each newline-terminated, with `Package`, `Version` and `Installed-Size` reading back as id, version and the size |
| Metadata.GenPackageInfo | build.py:61-71 | KeyError naming the first missing key of id, title, vendor, version; otherwise an ASCII document ending in "}\n" |
| Metadata.PackageInfoNeedsKeys | build.py:62-68 | the document exists exactly when id, title, vendor and version are all present |
| Metadata.PackageInfoReadBack | build.py:61-71 | the document decodes to `json.dumps(indent=2)` plus a newline: braces around five member lines, whose values read back as id, id, title, vendor, version |
| Metadata.PackageInfoDecodes | build.py:69-71 | with all four keys present the document decodes as UTF-8, and its lines are those of `json.dumps(indent=2)` followed by the final newline |
| Metadata.PackageInfoMembers | build.py:62-69 | the five member lines hold `app`, `id`, `loc_name`, `vendor` and `version` with values id, id, title, vendor and version |
| Metadata.PackageInfoLinesPlain | build.py:69 | every line of the document is ASCII and holds no line break, whatever the values |
| SizeEstimate.CalcSize | build.py:79-89 | the total is DIRECTORY_SIZE × (directories strictly below the root) + the bytes of every file |
| SizeEstimate.Walk | build.py:81 | `os.walk` top-down: the first step lists the top with its directory names and files, in listing order |
| SizeEstimate.WalkSizeIsEstimate | build.py:81-88 | what the loop adds over the steps of `os.walk` equals that estimate |
| SizeEstimate.WalkCounts | build.py:81 | the directory names `os.walk` lists over all its steps number the directories strictly below the top, and the file bytes it lists add up to the bytes of every file in the tree |
| SizeEstimate.EstimateConcat | build.py:79-89 | directory count, file bytes and estimate are each additive over a listing split in two |
| SizeEstimate.ListingOrderIrrelevant | build.py:81 | two listings with the same entries in any order have the same estimate |
| SizeEstimate.EstimateZero | build.py:79-89 | the estimate is zero exactly when the root holds nothing but empty files |
| SizeEstimate.WalkRelative | build.py:195-201 | walking a tree of plain names lists only relative bases and plain file names |
| Archive.Contents | build.py:96-97 | a str payload is stored as bytes that decode back to it |
| Archive.ResolveSize | build.py:96-109 | an explicit size wins; otherwise the length of the encoded str or the bytes, or the end offset of a seekable stream (the case of the two in-memory tars); an error exactly for a sizeless unseekable stream |
| Archive.ArFile.constructor | build.py:180 | a new ar archive has no members |
| Archive.ArFile.AddFile | build.py:121 | one member is appended after the others |
| Archive.ArAddFile | build.py:95-121 | fails, leaving the archive unchanged, exactly when the size cannot be resolved; otherwise appends one member with that size, mode 0o666, uid and gid 0 |
| Archive.TarFile.constructor | build.py:185 | a new tar archive has no members |
| Archive.TarFile.AddFile | build.py:155 | one member is appended after the others |
| Archive.Ancestors | build.py:143-146 | a name has one proper ancestor per "/"-separated segment but the last |
| Archive.Missing | build.py:147 | a path is kept exactly when it is an ancestor and not already a member name |
| Archive.NamesOf | build.py:142 | `tar.getnames()`: the member names in archive order |
| Archive.TarAppend | build.py:142-167 | the members present before are kept as a prefix, and the last member is the file |
| Archive.TarAddFile | build.py:124-167 | fails, leaving the archive unchanged, exactly when the size cannot be resolved; otherwise appends what `TarAppend` gives for the name with separators replaced by "/" |
| Archive.AncestorPrefix | build.py:145-146 | each ancestor followed by "/" is a prefix of the name |
| Archive.AncestorsOfAncestor | build.py:145-146 | the ancestors of the k-th ancestor are the k ancestors before it |
| Archive.AncestorsDeepen | build.py:145 | ancestors come shallowest first, each strictly longer than the one before |
| Archive.NoSlashAppendsOne | build.py:143-144 | a name without "/" appends the file member alone |
| Archive.AppendedDirectories | build.py:142-155 | the members inserted before the file are directories (0o777, uid 1000) for exactly the ancestors not already named, shallowest first |
| Archive.TarAppendListsAncestors | build.py:144-155 | afterwards every ancestor of the name is a member name |
| Archive.TarAppendAncestorsFirst | build.py:142-167 | if every member's ancestors were named before it, that still holds afterwards |
| Archive.TarAppendDirsFresh | build.py:147-155 | if no directory member repeated an earlier name, that still holds afterwards |
| Archive.TarAppendRegulars | build.py:157-167 | the only regular file appended is the file member itself (mode 0o666, uid and gid 1000) |
| Archive.AncestorsTwoDeep | build.py:143-146 | the ancestors of x/y/z are x and x/y |
| Archive.NestedFirst | build.py:142-167 | adding x/y/f to an empty tar writes x, x/y, then the file |
| Archive.NestedSecond | build.py:142-167 | adding x/y/g after x/y/f writes only the file: no directory is written twice |
| Package.Build | build.py:170-211 | a missing package-info field fails before anything is written; a manifest `size` field fails after `debian-binary`; otherwise exactly `debian-binary`, `control.tar.gz`, `data.tar.gz` in that order, with the Installed-Size of calc_size + 6 × 4096 + the package-info length |
| Package.InstalledSize | build.py:172-178 | calc_size of the tree plus 4 × and 2 × DIRECTORY_SIZE for the install prefixes plus the package-info length; at least six directories plus that length |
| Package.WriteArchive | build.py:180-211 | `debian-binary` first; a failing control generation stops there; otherwise the control tar and then the data tar |
| Package.AddTars | build.py:184-211 | control.tar.gz and then data.tar.gz are appended after what the archive held, each as its tar of members with its compressed length |
| Package.WriteControlTar | build.py:184-188 | the control tar holds what `tar_addfile` of `control` gives |
| Package.WriteDataTar | build.py:191-209 | the data tar holds each walked file under the application directory, then packageinfo.json |
| Package.AddTree | build.py:195-205 | the walk loop adds the files of every step, in walk order |
| Package.AddStepFiles | build.py:198-205 | one step's files are added in listing order, each under `os.path.join(output_base, relpath)` |
| Package.ArAddBytes | build.py:182 | a bytes member is appended with its own length |
| Package.ArAddTar | build.py:189 | an in-memory tar is appended with its end offset as its size |
| Package.TarAddBytes | build.py:187 | a bytes member is added as `tar_addfile` adds it |
| Package.AddOpenFile | build.py:204-205 | an opened file is added with its length as its size |
| Package.ControlTar | build.py:184-187 | the members of control.tar.gz: `tar_addfile` of `control` into an empty tar |
| Package.DataTar | build.py:191-209 | the members of data.tar.gz: every walked file, then packageinfo.json |
| Package.AddSources | build.py:198-205 | `tar_addfile` of each walked file in turn, read from its open file |
| Package.AddSourcesExtends | build.py:198-205 | adding files keeps the earlier members as a prefix and adds at least one member per file |
| Package.AddSourcesRegulars | build.py:198-205 | the walk loop adds, as regular files, exactly one member per walked file with its path, length and bytes |
| Package.AddSourcesInvariants | build.py:198-205 | adding walked files keeps the name of every ancestor ahead of its member and never repeats a directory name |
| Package.WalkSourcesBytes | build.py:81-88 | the bytes the data tar stores for the tree are the file bytes calc_size counts |
| Package.WalkSourcesBelow | build.py:195-202 | every walked file of a tree of relative names is placed strictly below the output base |
| Package.ControlTarHoldsControl | build.py:184-187 | control.tar.gz holds exactly one member, `control`, with the control bytes |
| Package.DataTarFiles | build.py:191-209 | the regular files of data.tar.gz are the tree's files in walk order, then packageinfo.json, which is also the last member |
| Package.DataTarWellFormed | build.py:191-209 | in data.tar.gz the names of every member's ancestors come before it, and no directory name is repeated |
| Package.InstalledSizeAccounts | build.py:172-178 | Installed-Size is DIRECTORY_SIZE × (tree directories + 6) + the bytes of the regular files in data.tar.gz |
| Package.ControlStatesInstalledSize | build.py:172-186 | the control file written reads back an Installed-Size equal to that account |
| Package.DataTarPlacement | build.py:193-202 | for a tree of plain names and an id not ending in "/", every tree file lies strictly below `usr/palm/applications/{id}/` and packageinfo.json comes last |

## Left out

- `inspect_ipk.py`: it only opens a fixed file and prints archive headers.
- The `click` command line (build.py:214-232): it chooses the output path with `gen_filename` and calls `build`.
- `get_appinfo` (build.py:47-54): the missing-manifest check and `json.load` are file-system and library work. The manifest is a map from field names to strings, and non-string values (such as `disableBackHistoryAPI`) are not modelled.
- The file system: the tree is a value. Symbolic links, permission errors and files changing during the build are not modelled. `os.stat(...).st_size` is the length of the file's bytes.
- `os.path.relpath` (build.py:196, 201): the relative path is built by joining names from the walked root. This is what `relpath` gives for a path below the root.
- Archive encodings: `tarfile` and `unix_ar` header bytes, padding and gzip compression are not modelled. A gzip'd tar is the list of its members. Its compressed length is the `compressedSize` parameter of `Package.Build`.
- `tarfile`/`unix_ar` reading exactly `size` bytes from a payload: a member records its size and its whole content. A size that disagrees with the content is not checked.
- Package.Build: every member's mtime is the single `now`. The source calls `int(time.time())` for each member, so its mtimes may differ by a second or more.
- Package.Build: "/" stands for `os.path.sep` and `os.path.join` is POSIX joining. `Archive.TarAddFile` takes the separator as a parameter, but Windows path joining is not modelled.
- Package.Build: `gen_packageinfo` is computed once. The source calls it twice (build.py:175, 208), and both calls give the same bytes.
- Package.Build: the output file's creation, buffering and closing are not modelled. `written` is the member list handed to the `ar` writer.
- Archive.Contents: a stream payload has no read position. A member receives the stream's whole source, so the model does not capture that the writers read from the start only after seeking a seekable stream (build.py:104-106), nor what an unseekable stream that was already read from would give.
- Metadata.GenControl: strings are sequences of Unicode scalar values, so they never hold a lone surrogate. A Python str can hold one (json.load turns "\ud800" in appinfo.json into one), and `encode("utf-8")` then raises UnicodeEncodeError in gen_control (build.py:76) and in the str branches of ar_addfile and tar_addfile (build.py:97, 126). "Succeeds exactly when" holds for the model's strings only.
- Metadata.GenPackageInfo: the five member keys are plain words that `json.dumps` writes unescaped. Key escaping is not modelled, and neither are non-string values.
- Metadata.ControlReadBack: the read-back needs single-line id and version. A newline in either would add lines to the control file, and the model does not describe what an installer then reads.
