# Markdown bookmark files, modelled in Dafny

The repository keeps bookmarks in a Markdown file. `## ` headings are categories. Under each are `- [title](url)` link lines and `### ` subheadings whose body is free text. Two scripts read such a file.

- `md_browser.py` parses the file into an insertion-ordered dictionary: category, then links and an ordered map from subheading to body. It writes that dictionary back out. `add_entry` sets one subheading's body and `delete_entry` deletes one; each then rewrites the file.
- `link_viewer.py` has an older `parse_markdown`. It maps every line that begins with `##` to a category and records the first `[title](http…)` link on each later line.

The model covers both parsers, the writer and the two edits. Each part keeps the source's own form:

- The line scans and the writer are methods with loops. Each is proved equal to a specification function that folds one step per line.
- The edits are methods of a class `Store`. It holds the parsed document and the file's text.
- Properties of those functions are lemmas.

Modules:

- `Wrappers`: `Option`.
- `Text`: Python's `strip`/`rstrip`/`lstrip` over ASCII whitespace, `"\n".join`, `split("\n")`, and `readlines` (universal newlines, each line keeping its `"\n"`).
- `Assoc`: an insertion-ordered dictionary as a list of pairs. It provides `d.get(k)`, `d[k] = v`, `del d[k]`, the keys in order, and their laws.
- `Bookmark`: a link, `(title, url)`.
- `MdDoc`: the `md_browser.py` document.
  - A category key is `Option<string>`, because links met before any `## ` are filed under `None`.
  - A section is a link list plus an ordered map of entries.
  - `AppendLink` and `StoreEntry` act through the `defaultdict`, which creates a missing category at the end.
- `MdParse`: `parse_markdown` of `md_browser.py`.
  - The two regular expressions are written as predicates and proved equal to their regular-expression reading.
  - `Step` and `Run` are the line scan, `Parse` adds the final flush, and `ParseMarkdown` is the loop.
- `MdWrite`: `write_markdown` as the text it writes. It also shows how that text splits back into lines.
- `MdRoundTrip`: the round trip. Parsing the written file gives back the document, for every document whose names, links and bodies survive the line format (`DocOk`).
- `MdEdit`: `add_entry` and `delete_entry` on a `Store`. The menu choices are parameters. The console lines typed for a new body are a sequence.
- `LinkViewer`: `parse_markdown` of `link_viewer.py`.
  - It covers `str.splitlines()`, the `^(##)\s*(.*)` heading match and the `\[([^\]]+)\]\((http[^\)]+)\)` search.
  - The result is described independently. Its keys are the heading names in order of first appearance. Each category's links are those found since the last heading of that name.

Behaviours of the code that the model pins down:

- In `md_browser.py`, a category exists only once a link or a body is stored under it. A `## X` with nothing under it disappears.
- A repeated `## X` adds to the existing `X`.
- A link line inside a subheading's body goes to the category's links.
- A file with no `## ` line loses the last subheading's body, because the final flush needs an open category.
- The `None` category is written as `## None` and reads back as the category named `"None"`.
- In `link_viewer.py`, `### Sub` is the category `# Sub` and a bare `##` is the category `""`.
- A repeated heading throws away the links gathered under its earlier occurrence.
- Links under an empty-named heading, or before any heading, are dropped.

Other behaviours of the code that the model keeps:

- In `md_browser.py` a link line must start with `- [`, and its url may be anything without `)`. In `link_viewer.py` a link may stand anywhere in a line, and its url must start with `http` and have at least one more character.
- What is proved for `md_browser.py` is parse-after-write: writing a well-formed document and reading it back gives the document. Write-after-parse on arbitrary text does not hold; for example, an empty `## X` is lost.

## Model

| member | source | states |
|---|---|---|
| Text.RStrip | md_browser.py:36 | `line.rstrip()` is no longer than the line and does not end in whitespace |
| Text.RStripPrefix | md_browser.py:36 | `line.rstrip()` is a prefix of the line (with RStripDropped: the line minus its trailing whitespace) |
| Text.LStripSuffix | md_browser.py:17 | `lstrip`, half of `strip`, keeps a suffix of the string (with LStripDropped: minus its leading whitespace) |
| Text.RStripDropped | md_browser.py:36 | `rstrip` removes only whitespace characters |
| Text.LStripDropped | md_browser.py:17 | `lstrip`, half of `strip`, removes only whitespace characters |
| Text.StripEnds | md_browser.py:17 | a stripped line is empty or starts and ends with non-whitespace |
| Text.StripTight | md_browser.py:17 | a line that starts and ends with non-whitespace is unchanged by `strip` |
| Text.StripNewline | md_browser.py:17 | the `"\n"` that `readlines` keeps never changes a stripped or right-stripped line |
| Text.SplitNl | md_browser.py:21 | `split("\n")` gives newline-free pieces that `"\n".join` puts back together |
| Text.NormalizeCRLF | md_browser.py:8 | a file opened in text mode reads `"\r\n"` as `"\n"` |
| Text.NormalizeCR | md_browser.py:8 | a lone `"\r"` also reads as `"\n"` |
| Text.NormalizeOther | md_browser.py:8 | every other character is read as it is |
| Text.StripPadded | link_viewer.py:24 | `strip` removes exactly the whitespace around a name that starts and ends with non-whitespace |
| Text.SplitLinesConcat | md_browser.py:9 | `readlines` loses nothing: the lines concatenate back to the text |
| Text.SplitLinesBreaks | md_browser.py:9 | `readlines` cuts right after each newline and nowhere else |
| Text.SplitLinesAppend | md_browser.py:9 | text cut after a newline reads as the lines of each part, one after the other |
| Assoc.Find | md_browser.py:11 | `d.get(k)` finds a value exactly when k is a key |
| Assoc.PutFind | md_browser.py:82 | after `d[k] = v`, k holds v and every other key holds its old value |
| Assoc.PutKeys | md_browser.py:82 | `d[k] = v` keeps the key order, and a new key goes last |
| Assoc.RemoveFind | md_browser.py:95 | after `del d[k]`, k is gone and every other key holds its old value |
| Assoc.RemoveKeys | md_browser.py:95 | `del d[k]` keeps the order of the other keys |
| Assoc.PutDistinct | md_browser.py:82 | assignment keeps keys unique |
| Assoc.RemoveDistinct | md_browser.py:95 | deletion keeps keys unique |
| MdDoc.AppendLinkSpec | md_browser.py:34 | appending a link extends exactly category k's link list and leaves its entries and every other category alone; a new k is created last |
| MdDoc.StoreEntrySection | md_browser.py:21 | storing a body changes only k's entry map (as `d[h] = b`); links and other categories stay, and a new k is created last |
| MdDoc.StoreEntrySpec | md_browser.py:82 | after storing, subheading h holds the body and every other subheading keeps its own; a repeated subheading overwrites |
| MdDoc.RemoveEntrySpec | md_browser.py:95 | deleting removes exactly subheading h of k; the other subheadings, in order, k's links, the other categories and the key list are unchanged |
| MdDoc.AppendLinkDistinct | md_browser.py:34 | appending a link keeps category names and subheadings unique |
| MdDoc.StoreEntryDistinct | md_browser.py:21 | storing a body keeps category names and subheadings unique |
| MdDoc.RemoveEntryDistinct | md_browser.py:95 | deleting keeps category names and subheadings unique |
| MdParse.LinkShapeRegex | md_browser.py:30 | the greedy test is exactly `re.match(r"- \[.*\]\(.*\)")`: a `- [` start, then a `](` followed by a `)` within the first line |
| MdParse.LinkShapeMatches | md_browser.py:30-32 | the lazy pattern matches exactly when the greedy one does, so `if match:` never fails |
| MdParse.LinkMatchShape | md_browser.py:31-33 | a match's groups are a title with no `](` and a url with no `)`, and the line starts with `- [title](url)` |
| MdParse.LinkMatchWritten | md_browser.py:31-33 | `- [t](u)` yields exactly (t, u) when t has no `](` and u no `)` |
| MdParse.ParseMarkdown | md_browser.py:16-41 | the loop computes the scan followed by the end-of-input flush |
| MdParse.StepCategory | md_browser.py:19-24 | a `## ` line flushes a pending body, sets the category to the stripped name and closes the subheading |
| MdParse.StepSubheading | md_browser.py:25-29 | a `### ` line flushes a pending body and opens the stripped subheading in the same category |
| MdParse.StepLink | md_browser.py:30-34 | a link line always yields a link, which is appended to the current category; buffer and subheading are untouched |
| MdParse.StepText | md_browser.py:35-36 | any other line is buffered right-stripped under an open subheading and dropped otherwise |
| MdParse.HeadingKindsDisjoint | md_browser.py:19-25 | a `### ` line is never taken as a `## ` heading |
| MdParse.HeadingNameNonEmpty | md_browser.py:23-29 | a heading's stripped name is never empty, so it is always truthy |
| MdParse.CategoryTracking | md_browser.py:12-24 | the current category is the name on the last `## ` line read, or None before any |
| MdParse.BufferUnderSubheading | md_browser.py:35-36 | lines are buffered only while a subheading is open |
| MdParse.ParseLinks | md_browser.py:30-34 | each category's links are exactly the link lines read while it was current, in file order, including links under subheadings and under None, and a repeated `## X` adds to X |
| MdParse.RunText | md_browser.py:35-36 | a run of body lines is appended right-stripped to the buffer under an open subheading and otherwise changes nothing |
| MdParse.SubheadingBody | md_browser.py:20-36 | `### h`, body lines B and a heading store `"\n".join(B).strip()` under h exactly when B is non-empty |
| MdParse.SubheadingClose | md_browser.py:20-28 | a heading line stores the pending body, if any, and nothing else |
| MdParse.ParseInvariants | md_browser.py:11-41 | every category in the result holds a link or an entry (an empty `## X` vanishes), and category names and subheadings are unique |
| MdParse.NoCategoryRun | md_browser.py:12-34 | with no `## ` line, everything is filed under None |
| MdParse.NoCategoryNoFinalFlush | md_browser.py:38-39 | with no `## ` line the final flush never happens, so the last subheading's body is lost |
| MdWrite.WriteMarkdown | md_browser.py:45-52 | the loop writes the serialization: sections in dictionary order |
| MdWrite.WriteSection | md_browser.py:46-52 | one category is written as `## name`, a blank line, its link lines, a blank line iff it has links, then `### sub`, body and a blank line per entry |
| MdWrite.SerializedLines | md_browser.py:45-52 | when no name, title or url holds a newline, the written text reads back as the line layout, one line per heading, link and body line |
| MdWrite.LinksRead | md_browser.py:47-48 | each link is written as one line |
| MdWrite.EntriesRead | md_browser.py:51-52 | each entry is its heading line, its body's lines and a blank line |
| MdWrite.SerializeTerminated | md_browser.py:45-52 | the written file is empty or ends with a newline |
| MdWrite.SectionTextNoCR | md_browser.py:46-52 | a category is written without a carriage return when its name, titles, urls, subheadings and bodies hold none |
| MdWrite.SerializeNoCR | md_browser.py:45-52 | the writer adds no carriage return of its own: a document whose names, titles, urls, subheadings and bodies hold none is written without one |
| MdRoundTrip.RoundTrip | md_browser.py:16-52 | parsing what `write_markdown` wrote gives back the document, with categories, links, subheadings and bodies in the same order, whenever names are non-empty and stripped, titles hold no `](`, urls no `)`, bodies are stripped with no line that reads as a heading or link, and every category is non-empty |
| MdRoundTrip.SerializeNoneAsName | md_browser.py:46 | the None key is written exactly as a category named `"None"` would be |
| MdRoundTrip.NoneKeyRenamed | md_browser.py:46 | any well-formed document once its None key is renamed: what was filed under None is read back under the category `"None"`, and everything else as it was |
| MdRoundTrip.RunSection | md_browser.py:16-52 | one written section, read after any document, adds exactly that section |
| MdRoundTrip.RunDoc | md_browser.py:16-52 | the lines of a written document scan back to that document |
| MdRoundTrip.BodyRead | md_browser.py:21 | a written body, buffered line by line, joins and strips back to itself |
| MdEdit.DoneAtIs | md_browser.py:75-78 | the content ends at the first console line that strips to `::done` |
| MdEdit.ReadContent | md_browser.py:74-79 | the loop collects exactly the lines before the first `::done`, and yields nothing when input ends without one |
| MdEdit.AddResult | md_browser.py:69-86 | an empty stripped heading aborts; input ending before `::done` aborts; otherwise the stripped, joined lines are added when non-empty and refused when empty |
| MdEdit.Store.Open | md_browser.py:132 | the store holds the file's text and its parse, and they agree |
| MdEdit.Store.AddEntry | md_browser.py:67-86 | on success sets exactly `entries[heading]` of the chosen category and rewrites the file; every other entry, category and link is unchanged; any other outcome changes nothing; a well-formed entry in a well-formed document reads back from the new file |
| MdEdit.Store.DeleteEntry | md_browser.py:88-97 | a category without subheadings is left alone; otherwise exactly the chosen subheading is deleted and the file rewritten, the rest unchanged; a well-formed document reads back unless the category is left empty |
| MdEdit.StoreEntryOk | md_browser.py:82 | adding a well-formed entry keeps a document that survives the round trip |
| MdEdit.RemoveEntryOk | md_browser.py:95 | deleting an entry keeps a document that survives the round trip, provided the category keeps a link or an entry |
| MdEdit.AddedFacts | md_browser.py:82-83 | the stored document differs from the old one in exactly one entry, and reads back from its file when well-formed |
| MdEdit.DeletedFacts | md_browser.py:95-96 | the stored document lacks exactly the deleted entry, and reads back from its file when well-formed and non-empty |
| LinkViewer.BreakFromFirst | link_viewer.py:21 | a line runs up to the first line-break character of `str.splitlines()` |
| LinkViewer.SplitBreaksClean | link_viewer.py:21 | no line from `splitlines()` holds a line break |
| LinkViewer.HttpAtSlice | link_viewer.py:26 | the character test is the pattern's `http` prefix |
| LinkViewer.MatchAtSound | link_viewer.py:26-27 | a match the search finds is a match of `\[([^\]]+)\]\((http[^\)]+)\)` |
| LinkViewer.MatchAtComplete | link_viewer.py:27-30 | every match of the pattern at a position is the one the search takes there, with the same groups |
| LinkViewer.SearchFromLeftmost | link_viewer.py:26-27 | the search returns the leftmost match, or none when there is none |
| LinkViewer.SearchLinkRegex | link_viewer.py:26-30 | `re.search` finds nothing exactly when the pattern matches nowhere, and otherwise returns the groups of the leftmost match |
| LinkViewer.ParseMarkdown | link_viewer.py:17-33 | the loop computes the categorized links of the file's `splitlines()` |
| LinkViewer.RunViewSnoc | link_viewer.py:21-31 | one more line is one more iteration |
| LinkViewer.FirstAppearancesElems | link_viewer.py:25 | the keys hold every heading name, once each |
| LinkViewer.RunViewCurrent | link_viewer.py:18-24 | the current heading is the name of the last heading line, or None before any |
| LinkViewer.RunViewKeys | link_viewer.py:21-25 | the keys are the heading names in order of first appearance, so a heading with no links is a key too |
| LinkViewer.RunViewFind | link_viewer.py:21-31 | a heading's links are the links found after its last occurrence, so a repeated heading discards earlier links |
| LinkViewer.EmptyNameSwallows | link_viewer.py:26 | the links gathered since the last empty-named heading are always none |
| LinkViewer.EmptyHeadingNoLinks | link_viewer.py:21-31 | in a file's result, the empty name is a key exactly when a bare `##` line occurs, and its link list is always empty |
| LinkViewer.NoHeadingNoLinks | link_viewer.py:18-26 | links before any heading are ignored |
| LinkViewer.CategorizeSpec | link_viewer.py:17-33 | the result for a file's text: its distinct keys and each key's links |
| LinkViewer.HeadingOf | link_viewer.py:22-24 | `##`, any whitespace, a name and any whitespace is a heading with that name, with or without a space after `##` |
| LinkViewer.NotHeading | link_viewer.py:22 | an indented `## X` is not a heading, because the unstripped line is matched |
| LinkViewer.SubheadingLineIsCategory | link_viewer.py:22-24 | `### Sub` starts the category `# Sub` |
| LinkViewer.BareHeading | link_viewer.py:22-24 | a bare `##` starts the category `""` |

## Left out

- Reading and writing files, and UTF-8 decoding, are left out. A file is its text as a `string`. `readlines` and text-mode reading are modelled with universal newlines (`\r\n` and `\r` become `\n`). Writing produces `"\n"` line ends only, as on POSIX.
- Text.IsSpace: `strip`, `rstrip` and `lstrip` remove only the ASCII whitespace Python recognises, not Unicode whitespace such as U+00A0 or U+2028.
- Regular expressions in general are left out. Only the three patterns used are modelled, as predicates.
- `choose_from_list`, `input()` prompts and printed messages are left out. The chosen category and subheading are parameters, restricted to what the menu offers. With an empty list the menu never returns, so an empty document is outside `AddEntry`'s and `DeleteEntry`'s preconditions.
- MdEdit.AddResult: if input ends before `::done`, `input()` raises `EOFError` and the script stops with nothing written. This is the `InputEnded` outcome.
- MdEdit.Store.DeleteEntry: reading back is proved only when the category keeps a link or an entry. Deleting a link-less category's last entry writes a bare heading, which is not proved to vanish on the next parse.
- MdEdit.Store.AddEntry: reading back is proved only for well-formed documents and entries (`DocOk`, `NameOk`, `BodyOk`). Other bodies, for example one with a `## ` line, reparse differently, and that difference is not described.
- `browse`, `display_menu` (including its negative-index wrap-around), `open_in_browser`, the `webbrowser` launch, `main`, `argparse` and the `os.path.exists` checks are left out. They are prompt or operating-system actions with no document logic.
- The two `re.findall` calls in `link_viewer.py` are left out, because their results are never used.
