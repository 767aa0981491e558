# ec2hosts block editor, modelled in Dafny

ec2hosts keeps a named block of generated host lines inside a hosts file that is
otherwise edited by hand. The block is delimited by the lines
`# START EC2HOSTS - <name> #` and `# END EC2HOSTS - <name> #`. Between them sits
one line per running EC2 instance: `<address> <name> # <id> <type> <zone>`, then one
column for each requested tag that has a value. Three operations each scan the file
once, line by line:

- `Update` regenerates the body of the block in place. When the file has no block,
  it appends one after a blank line.
- `Delete` strips the blocks of one name.
- `DeleteAll` strips every block whose markers match the any-name patterns.

This project models that core of `ec2hosts.go` and proves what it does.

## Modules

- `Strings` (strings.dfy): `strings.Contains`, and Go's `<` on strings (lexicographic),
  proved a strict total order.
- `Markers` (markers.dfy): `StartMarker`/`EndMarker`, and the patterns `StartMarkerRe`,
  `EndMarkerRe` and `HostRe` written as predicates.
- `Inventory` (inventory.dfy): the `Instance` record, `Tag`, `Name`, the `Less` order,
  the name filter of `GetInstances` and the sort that follows it.
- `Formatter` (formatter.dfy): `writeInstanceContent`, a method with the source's loop
  over the requested tags, proved against `FormatLine`. Also the per-instance address
  choice.
- `Editor` (editor.dfy): `Update`, `Delete` and `DeleteAll` as the source's loops, on a
  state variable and an output buffer. Each method is proved to return what a
  specification function returns. That function is a fold over the lines: `Updated`
  for `Update`, and `Deleted`/`DeletedAll` for the other two, which share one strip
  scan parameterised by a `Scope`.
- `UpdateFacts`, `DeleteFacts` (update_facts.dfy, delete_facts.dfy): what those folds
  do for each shape of input. This covers the error cases, idempotence, isolation from
  other blocks, and how `Delete`/`DeleteAll` undo `Update`.
- `Scenarios` (scenarios.dfy): two example inputs of `Update`, generic in the
  hand-written lines and the addresses: one installs a block, the other regenerates it
  in place.

Input and output are lists of lines. The input is the list of lines the scanner
delivers, plus a flag saying whether the scanner then stopped with a read error. The
output is an `Outcome`:

- `Done(content)` when the operation succeeds;
- `Failed(content, error)` when it stops early, where `content` is the partial buffer
  the source also returns.

Every output line is written followed by `"\n"`. `Editor.Render` gives the bytes of a
buffer, and `Editor.WriteLine` shows that writing one more line appends it and a
newline to those bytes.

Behaviour of the code that a reader might not expect, each stated by a lemma:

- The zone column is always printed, so an instance without a zone gets a trailing
  space: `10.0.0.1 web1 # i-1 t2.micro ` (`Scenarios.InstallBlock`).
- `DeleteAll` after `Update` on a file without blocks gives the file plus the blank
  separator line (`DeleteFacts.DeleteAllUndoesAppend`). `Delete` behaves the same
  (`DeleteFacts.DeleteUndoesAppend`).
- `Update` accepts only one block of its name. Any second start marker fails, even one
  after a completed block (`UpdateFacts.UpdateSecondStart`). `Delete` removes any number
  of blocks (`DeleteFacts.DeleteRemovesBlock`).
- A start marker with no end is not an error. `Update` writes the block without its end
  marker and drops the rest of the file (`UpdateFacts.UpdateUnterminatedBlock`). `Delete`
  drops everything after the start (`DeleteFacts.DeleteUnterminated`).
- Instances whose name does not match `HostRe` are excluded; the name is not replaced
  (`Inventory.Kept`).
- `sort.Sort` is not stable, so only "sorted by name" and "a permutation of the kept
  instances" are claimed (`Inventory.SelectInstances`).
- The any-name patterns refuse an empty name, so `DeleteAll` leaves a block named `""`
  in place (`DeleteFacts.DeleteAllKeepsEmptyNamedBlock`).

## Definitions

The definitions that stand for the source's own functions and values. The lemmas and
methods in the table below state what they do.

- `Markers.StartMarker`, `Markers.EndMarker` (ec2hosts.go:191-197): the literal
  `# START EC2HOSTS - ` + name + ` #`, and `# END EC2HOSTS - ` + name + ` #`.
- `Markers.IsAnyStart`, `Markers.IsAnyEnd` (ec2hosts.go:89-90): `StartMarkerRe` and
  `EndMarkerRe`. The line is the prefix, then at least one character other than a
  newline, then ` #`.
- `Markers.IsHostName` (ec2hosts.go:91): `HostRe`, a non-empty run of ASCII letters,
  digits and `-`.
- `Inventory.Name` (ec2hosts.go:39-45): the Name tag, or the id when that tag is empty
  or absent.
- `Inventory.FirstValue`, `Inventory.Tag` (ec2hosts.go:51-58): the value of the
  instance's first tag with that key, or "".
- `Inventory.NameLess` (ec2hosts.go:31-33): `Instances.Less`, Go's `<` on the two names.
- `Inventory.Keep` (ec2hosts.go:144-146): the name matches `HostRe` and, when `exclude`
  is non-empty, does not contain it.
- `Formatter.ChooseAddress` (ec2hosts.go:237-241, 279-283): the public address when
  `public` is non-empty and the instance's name contains it, otherwise the private one.
- `Formatter.FormatLine` (ec2hosts.go:199-213): the text `writeInstanceContent`
  prints, without its newline.
- `Editor.Updated`, `Editor.Deleted`, `Editor.DeletedAll` (ec2hosts.go:215-296,
  298-335, 337-372): the outcome of `Update`, `Delete` and `DeleteAll`, as folds of the
  state machine over the lines.

## Model

| member | source | states |
|---|---|---|
| Strings.LessIrreflexive | ec2hosts.go:31-33 | no name sorts before itself |
| Strings.LessAsymmetric | ec2hosts.go:31-33 | if a sorts before b, b does not sort before a |
| Strings.LessTransitive | ec2hosts.go:31-33 | the name order is transitive |
| Strings.LessTotal | ec2hosts.go:31-33 | of two different names, one sorts before the other |
| Strings.NotLessTransitive | ec2hosts.go:31-33 | "not before" is transitive, which the sort needs |
| Strings.ContainsEmpty | ec2hosts.go:145 | every string contains "" (which is why the source guards `exclude == ""` and `public != ""`) |
| Markers.StartMarkerMatchesAny | ec2hosts.go:89 | `StartMarkerRe` accepts `StartMarker(n)` exactly when n is non-empty and has no newline |
| Markers.EndMarkerMatchesAny | ec2hosts.go:90 | `EndMarkerRe` accepts `EndMarker(n)` exactly when n is non-empty and has no newline |
| Markers.AnyStartIsStartMarker | ec2hosts.go:89 | every line `StartMarkerRe` accepts is `StartMarker` of the non-empty name between prefix and suffix |
| Markers.AnyEndIsEndMarker | ec2hosts.go:90 | every line `EndMarkerRe` accepts is `EndMarker` of the name it carries |
| Markers.MarkersAreInjective | ec2hosts.go:191-197 | equal start markers, or equal end markers, have equal names |
| Markers.StartIsNeverEnd | ec2hosts.go:89-90 | no start marker is an end marker, literally or by pattern |
| Markers.PlainLineIsNoMarker | ec2hosts.go:89-90 | a line not starting with '#' is no marker of any name |
| Inventory.FirstValueSpec | ec2hosts.go:51-58 | the tag value is that of the first pair with the key, or "" when no pair has it |
| Inventory.NameFromTags | ec2hosts.go:39-45 | read off the tag list: the value of the first pair keyed "Name" when that value is non-empty; the id when that value is empty or no pair is keyed "Name" |
| Inventory.Insert | ec2hosts.go:157 | inserting into a sorted list keeps it sorted, with one more occurrence of the element |
| Inventory.SortByName | ec2hosts.go:157 | the result is sorted by name and is a permutation of the input |
| Inventory.Kept | ec2hosts.go:141-148 | an instance is kept iff it was fetched and its name matches `HostRe` and, when `exclude` is set, does not contain it; a kept instance appears as often as it was fetched, any other not at all |
| Inventory.SelectInstances | ec2hosts.go:141-157 | the filter loop then the sort: sorted by name, a permutation of the kept instances, holding exactly the fetched instances that pass the filter |
| Formatter.PresentValues | ec2hosts.go:203-209 | one column per requested tag at most, and none is empty |
| Formatter.PresentValuesMembers | ec2hosts.go:203-209 | every requested tag with a value gets a column; every column is a requested tag's value |
| Formatter.PresentValuesConcat | ec2hosts.go:203-209 | columns follow the order in which tags are requested |
| Formatter.WriteInstanceContent | ec2hosts.go:199-213 | the loop over tags builds exactly the line `FormatLine` describes |
| Formatter.FormatLineLayout | ec2hosts.go:200-201 | the line is `ip name # id type zone` then " value" per present tag; the zone is always there |
| Formatter.FormatLineIsOneLine | ec2hosts.go:211 | with no newline in any attribute, the line holds no newline, so one line is printed |
| Formatter.FormatLineFields | ec2hosts.go:200 | splitting at the first spaces gives back the address and then the name |
| Formatter.KeptNameHasNoSpace | ec2hosts.go:91 | a name that passes `HostRe` has no space, newline or '#' |
| Formatter.FormatLineIsNoMarker | ec2hosts.go:200 | a line whose address does not begin with '#' is no marker of any name |
| Editor.RenderAppend | ec2hosts.go:217 | the bytes of two buffers one after the other are the bytes of the first, then those of the second |
| Editor.WriteLine | ec2hosts.go:261 | writing one more line with `"%s\n"` appends the line and a newline to the bytes |
| Editor.BodySnoc | ec2hosts.go:235-246 | each further instance adds its own line at the end of the body |
| Editor.WriteInstances | ec2hosts.go:235-246 | the instance loop writes one `FormatLine` per instance, in order, at the address chosen inline |
| Editor.Update | ec2hosts.go:215-296 | the scan loop with its state variable and buffer returns exactly `Updated` |
| Editor.Delete | ec2hosts.go:298-335 | the scan loop returns exactly `Deleted` |
| Editor.DeleteAll | ec2hosts.go:337-372 | the scan loop with the any-name patterns returns exactly `DeletedAll` |
| UpdateFacts.ScanMarker | ec2hosts.go:228-259 | a marker line moves the state machine: start Before enters the block and writes the body, end Inside leaves it, any other combination fails with that marker's error |
| UpdateFacts.ScanPlainLines | ec2hosts.go:260-265 | non-marker lines keep the state: copied Before and After, dropped Inside |
| UpdateFacts.UpdateAppendsBlock | ec2hosts.go:271-293 | without either marker: every input line, "", start marker, one line per instance, end marker, no error |
| UpdateFacts.UpdateReplacesBlock | ec2hosts.go:228-265 | one well-formed block: lines before and after copied, both markers kept, old body replaced by the regenerated one |
| UpdateFacts.UpdateUnterminatedBlock | ec2hosts.go:228-246 | a start with no end: lines before, start marker, body, and nothing more, without an error |
| UpdateFacts.UpdateStrayEnd | ec2hosts.go:250-259 | an end marker before any start fails with "Invalid end marker" and the lines copied so far |
| UpdateFacts.UpdateStartInsideBlock | ec2hosts.go:228-249 | a start inside the block fails with "Invalid start marker" and the buffer up to the regenerated body |
| UpdateFacts.UpdateSecondStart | ec2hosts.go:247-249 | a start after a completed block fails with "Invalid start marker" |
| UpdateFacts.UpdateSecondEnd | ec2hosts.go:257-259 | an end after a completed block fails with "Invalid end marker" |
| UpdateFacts.ScanFailsOnReadFailure | ec2hosts.go:267-269 | a read error always ends the scan in failure |
| UpdateFacts.UpdateReadFailure | ec2hosts.go:267-271 | a read error fails `Update`; on a file without the block nothing is appended first |
| UpdateFacts.SucceedsAfter | ec2hosts.go:247-265 | after the block, success means no further marker and the rest copied |
| UpdateFacts.SucceedsInside | ec2hosts.go:247-265 | inside the block, success means running off the end, or the end marker followed by an unmarked rest |
| UpdateFacts.RescanAppended | ec2hosts.go:271-293 | an appended block reads back as one well-formed block |
| UpdateFacts.RescanReplaced | ec2hosts.go:228-265 | a regenerated block reads back unchanged |
| UpdateFacts.RescanReproduces | ec2hosts.go:215-296 | rescanning what a successful scan wrote writes it again |
| UpdateFacts.UpdateIsIdempotent | ec2hosts.go:215-296 | `Update` applied to its own successful output, with the same instances, returns that output |
| UpdateFacts.BodyIsUnmarked | ec2hosts.go:235-246 | when no chosen address starts with '#', the body holds no marker of any name |
| UpdateFacts.BodyLineAddress | ec2hosts.go:237-241 | each body line starts with the public address iff `public` is set and that instance's own name contains it, else the private one |
| UpdateFacts.OtherMarkersArePlain | ec2hosts.go:228-250 | the markers of another name are ordinary lines for `Update` |
| UpdateFacts.UpdateKeepsLaterBlock | ec2hosts.go:228-265 | updating block a leaves a later block b, markers and body, unchanged |
| UpdateFacts.UpdateAppendsBesideOtherBlock | ec2hosts.go:260-293 | without block a, the file including block b is kept whole and block a is appended |
| DeleteFacts.StripFailsOnReadFailure | ec2hosts.go:330-332 | a read error ends every strip in failure, whatever the input held |
| DeleteFacts.DeleteReadFailure | ec2hosts.go:330-332 | a read error fails `Delete` and `DeleteAll` (lines 367-369); on a file without their markers they return every line read, with the read error |
| DeleteFacts.StripKeepsWritten | ec2hosts.go:309-334 | what the scan has written stays in front of what the rest writes, on success and on failure |
| DeleteFacts.StripPlainLines | ec2hosts.go:323-328 | non-marker lines are copied Outside and dropped Inside |
| DeleteFacts.DeleteWithoutMarkers | ec2hosts.go:323-334 | a file without markers is returned unchanged: nothing is ever added |
| DeleteFacts.DeleteRemovesBlock | ec2hosts.go:311-320 | a block is dropped along with both markers, and the scan goes on after it as at the start |
| DeleteFacts.DeleteUnterminated | ec2hosts.go:311-314 | a start with no end drops the rest of the file without an error |
| DeleteFacts.DeleteStrayEnd | ec2hosts.go:317-322 | an end outside a block fails with "Invalid end marker" and the lines copied so far |
| DeleteFacts.DeleteStartInsideBlock | ec2hosts.go:311-316 | a start inside a block fails with "Invalid start marker" |
| DeleteFacts.StripWritesNoMarkers | ec2hosts.go:309-328 | the buffer never holds a marker the scan recognises |
| DeleteFacts.DeletedHaveNoMarkers | ec2hosts.go:298-372 | `Delete` writes neither marker of its name; `DeleteAll` writes no line the patterns accept |
| DeleteFacts.ScopesAgree | ec2hosts.go:348-359 | two marker tests that agree on every line strip the file identically |
| DeleteFacts.DeleteAllIsDeleteOfOnlyName | ec2hosts.go:337-372 | on a file whose only markers are those of `name`, `DeleteAll` equals `Delete(name)` |
| DeleteFacts.DeleteUndoesAppend | ec2hosts.go:273 | on a file without the block, `Delete` after `Update` gives the file plus the blank separator |
| DeleteFacts.DeleteUndoesReplace | ec2hosts.go:298-335 | with one well-formed block, `Delete` after `Update` equals `Delete` alone: the lines around the block |
| DeleteFacts.DeleteAllUndoesAppend | ec2hosts.go:337-372 | on a file without managed blocks, `DeleteAll` after `Update` gives the file plus the blank separator |
| DeleteFacts.AnyMarkersIncludeNamed | ec2hosts.go:89-90 | a line no pattern accepts is neither marker of an acceptable name |
| DeleteFacts.DeleteAllKeepsEmptyNamedBlock | ec2hosts.go:89-90 | a block named "" survives `DeleteAll` |
| Scenarios.WebLine | ec2hosts.go:199-213 | an instance with id, type, a Name tag and no zone prints as `ip name # id type ` with the trailing space |
| Scenarios.InstallBlock | ec2hosts.go:271-293 | hand-written lines, then "", the start marker, the lines for web1 and web2, the end marker |
| Scenarios.RegenerateBlock | ec2hosts.go:228-265 | rerunning with web1 at a new address rewrites that body line; the lines around the block stay |

## Left out

- `GetInstances`' DescribeInstances calls, filters and `NextToken` pagination, `getRegion`
  and `Ec2Service`: AWS SDK and environment plumbing. Only the filter (lines 144-146) and
  the sort (line 157) are modelled. The reservations are flattened into one list of
  instances.
- `WriteFile`: file-system I/O only.
- `url.QueryEscape` in `Tag`, a library call: tag values, and so names, are taken as
  already escaped.
- The `regexp` engine: the three patterns are written as predicates.
- `bufio.Scanner`: the input is already split into lines. Its stripping of a trailing
  `\r` and its 64 KB token limit are library behaviour. A read error is one flag that
  takes effect after the delivered lines.
- Write errors on the `bytes.Buffer`: these never happen, so writes are infallible.
- `fmt.Fprintf` in general: `Formatter.Columns` gives what it prints for the format that
  `writeInstanceContent` builds, which has exactly one `%s` per argument.
- The accessors `Id`, `Type`, `PrivateIpAddress`, `PublicIpAddress`, `AvailabilityZone`:
  these become fields of `Instance`, where nil is the empty string. `Len` and `Swap` are
  sort machinery.
- main.go: an older prototype of the same program, with its own conflicting definitions.
  It is not part of this model.
- UpdateFacts.UpdateIsIdempotent: stated on lists of lines, with the requirement that
  no body line is a marker of the block. Rereading the rendered bytes would also split
  any attribute that contains a newline.
