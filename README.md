# JSON-to-Markdown converter of video records

This project models `app/tools/json_to_md.py`. The tool reads a decoded JSON
object whose `data` list holds video records. It groups the dict records by
their subject ("Môn học") and writes a Markdown document:

- a title line, `# ` and the message;
- one `## Môn học: ` heading per subject, with subjects sorted by their
  lower-cased label;
- under each heading, one bullet per record with its title;
- under each bullet, up to six sub-bullets in a fixed order: ID, Mô tả,
  Hashtag, id_course, Lĩnh vực, Lĩnh vực (EN).

Every free-text value is escaped for Markdown first.

The model has seven modules:

- `Json` (json.dfy): decoded JSON values, Python truthiness, `str()` and
  `dict.get`.
- `MdEscape` (escape.dfy): `_escape_md` as the chain of seven `str.replace`
  calls. It is proved equal to a per-character substitution. The module also
  proves that escaping is lossless (an unescaper inverts it) and how much
  longer the text grows.
- `Joining` (join.dfy): `sep.join` and `_join`, with the length of the
  result, when it is empty, and a split that inverts it.
- `PyStr` (pystr.dfy): `str.rstrip()`, Python's string order, and
  `sorted(..., key=...)` as a stable insertion sort. It proves the result is
  a permutation, sorted, stable and keeps its elements.
- `Seqs` (seqs.dfy): three facts about sequence concatenation used by the
  proofs.
- `JsonToMd` (converter.dfy): the data model and `json_to_markdown`.
  - The functions (`Document`, `Render`, `JsonToMarkdown`) say what the
    result is.
  - The methods (`Convert`, `GroupBySubject`, `EmitSubjects`, `EmitSections`,
    `EmitSection`, `EmitRecords`, `EmitRecord`, `CollectFieldNames`, `AppendBullets`) follow the source's
    loops and `lines.append` calls. Each is proved to build exactly that
    result.
- `JsonToMdFacts` (facts.dfy): what the list `lines` holds before it is
  joined, and how the returned text begins.
  - The headings in `lines` and their order.
  - Exactly one title bullet in `lines` per dict record.
  - When each sub-bullet appears.
  - How the returned text begins.

Python's `str()` of a value that is not a string is taken as a parameter
`repr: Json -> string`, because its rendering of numbers, lists and dicts is
Python's own repr. Python's `str.lower` is the parameter `lower`. A string
value is always rendered as itself.

Two places where the code is followed rather than the general description
of the tool:

- Escaping a backtick: line 14 replaces a backtick by the three characters
  backslash, backtick, backtick. The source literal `"\``"` keeps the
  backslash of the unknown escape `` \` ``. The model does the same, so a
  backtick grows by two characters and every other special character by
  one.
- Showing a sub-bullet: line 80 tests the raw `Hashtag` value, not the
  joined text. A hashtag list `[""]` is truthy, so the record gets a
  `  - Hashtag: ` line with an empty value. This is proved in
  `JsonToMdFacts.HashtagOfEmptyString`. ID, Mô tả and id_course are shown
  only when their text is non-empty. The two Lĩnh vực lines are shown only
  when their list of names is non-empty.

## Model

| member | source | states |
|---|---|---|
| Json.Truthy | app/tools/json_to_md.py:28 | definition, no contract: Python's `bool()` of a JSON value, as `or` and `if` test it |
| Json.Str | app/tools/json_to_md.py:28 | `str()` returns a string value as it is, and any other value `v` as `repr(v)` |
| Json.GetStr | app/tools/json_to_md.py:49-51 | `str(o.get(key, default))`: the default when the key is absent, otherwise `str()` of the value; a present string is returned as it is |
| Json.GetOr | app/tools/json_to_md.py:52 | `o.get(key) or fallback`: a truthy value at the key is returned; when the key is absent or its value falsy, exactly the fallback |
| MdEscape.Replace | app/tools/json_to_md.py:13-19 | definition, no contract: `str.replace` with a one-character pattern; its properties are `ReplaceAppend`, `ReplaceAbsent` and `ReplaceOne` |
| MdEscape.EscapeMd | app/tools/json_to_md.py:10-20 | definition, no contract: the seven chained replacements as written; its properties are the `Escape…` lemmas below |
| MdEscape.EscapeChar | app/tools/json_to_md.py:12-20 | a special character becomes a backslash followed by itself; a backtick becomes exactly backslash, backtick, backtick (3 characters); any other character is unchanged |
| MdEscape.EscapeEach | app/tools/json_to_md.py:12-20 | definition, no contract: `EscapeChar` applied to every character, the independent reference for `EscapeMd` |
| MdEscape.EscapeIsCharMap | app/tools/json_to_md.py:12-20 | the seven chained replacements equal the per-character substitution `EscapeChar` applied to every character |
| MdEscape.EscapeEachLength | app/tools/json_to_md.py:12-20 | the substitution adds one character per special character (two per backtick); it adds none exactly when no character is special |
| MdEscape.EscapeLength | app/tools/json_to_md.py:10-20 | `_escape_md` never shortens its input; it keeps the length exactly when the input has none of the seven characters |
| MdEscape.EscapeIdentity | app/tools/json_to_md.py:10-20 | a text without any of the seven characters is returned unchanged |
| MdEscape.EscapeRoundTrip | app/tools/json_to_md.py:10-20 | unescaping the escaped text gives the original text back |
| MdEscape.EscapeInjective | app/tools/json_to_md.py:10-20 | two texts with the same escaped form are equal |
| Joining.JoinWith | app/tools/json_to_md.py:24 | definition, no contract: Python's `sep.join(xs)`; its length is `JoinWithLength` |
| Joining.JoinNonEmpty | app/tools/json_to_md.py:23-24 | definition, no contract: `_join`; its properties are the three `JoinNonEmpty…` and `SplitJoin` rows |
| Joining.NonEmpty | app/tools/json_to_md.py:24 | the filter `if v` leaves only non-empty values, and no more than it was given |
| Joining.NonEmptyBag | app/tools/json_to_md.py:24 | the filter keeps every non-empty value as often as it occurs and drops every empty one |
| Joining.NonEmptyAppend | app/tools/json_to_md.py:24 | filtering two runs of values is filtering each and concatenating, so the kept values stay in input order |
| Joining.JoinWithLength | app/tools/json_to_md.py:24 | `sep.join` of a non-empty list is as long as its elements together plus one separator between each two |
| Joining.JoinNonEmptyLength | app/tools/json_to_md.py:23-24 | `_join`'s result is as long as all values together plus two per separator; it is "" exactly when every value is empty |
| Joining.JoinNonEmptySnoc | app/tools/json_to_md.py:23-24 | one more value: an empty one changes nothing, the first non-empty one is the whole result, a later one is appended after ", " |
| Joining.SplitJoin | app/tools/json_to_md.py:23-24 | with no comma in any value, splitting the result at ", " gives back the non-empty values in order |
| PyStr.IsSpace | app/tools/json_to_md.py:91 | definition, no contract: the characters Python's `str.isspace()` accepts |
| PyStr.RStrip | app/tools/json_to_md.py:91 | `rstrip()` returns a prefix of its input; only whitespace is removed, and the result does not end in whitespace |
| PyStr.RStripKeepsPrefix | app/tools/json_to_md.py:91 | a prefix that ends in a non-space character survives `rstrip()` |
| PyStr.LexLe | app/tools/json_to_md.py:44 | definition, no contract: Python's `<=` on strings, code point by code point; its order laws are the three rows below |
| PyStr.LexLeTotal | app/tools/json_to_md.py:44 | Python's string order compares any two strings |
| PyStr.LexLeAntisymmetric | app/tools/json_to_md.py:44 | two strings each no greater than the other are equal |
| PyStr.LexLeTransitive | app/tools/json_to_md.py:44 | Python's string order is transitive |
| PyStr.SortByKey | app/tools/json_to_md.py:44 | `sorted` returns a permutation of its input |
| PyStr.SortMembers | app/tools/json_to_md.py:44 | `sorted` keeps exactly the elements it is given |
| PyStr.SortSorted | app/tools/json_to_md.py:44 | the result of `sorted` is in non-decreasing key order |
| PyStr.SortNoDup | app/tools/json_to_md.py:44 | sorting a list without repeats gives a list without repeats |
| PyStr.SortStable | app/tools/json_to_md.py:44 | `sorted` is stable: the elements sharing any one key keep their input order |
| JsonToMd.HasDataList | app/tools/json_to_md.py:29-31 | definition, no contract: `obj.get("data")` is present and a list, the test whose failure raises the `ValueError`; see `Convert` |
| JsonToMd.Message | app/tools/json_to_md.py:28 | the message is the first truthy of `message` and `Message`, else "Danh sách Video" |
| JsonToMd.DictRecords | app/tools/json_to_md.py:35-36 | the dict elements of `data` in order, no more than there are elements; `DictRecordsOne` and `DictRecordsAppend` fix it on every list, and `DictRecordsEmpty` and `NonDictIgnored` follow |
| JsonToMd.Subject | app/tools/json_to_md.py:37 | the subject is "Khác" only when the key is absent; a present value, even a falsy one, is rendered with `str()` |
| JsonToMd.Subjects | app/tools/json_to_md.py:35-37 | one subject per dict record, as many as there are records; `SubjectsAt` gives each position |
| JsonToMd.Distinct | app/tools/json_to_md.py:34-38 | the dict's keys are exactly the subjects that occur |
| JsonToMd.SubjectOrder | app/tools/json_to_md.py:44 | definition, no contract: `sorted(by_subject.keys(), key=lambda s: s.lower())`; its properties are `SubjectOrderSpec` and `SubjectOrderMembers` |
| JsonToMd.WithSubject | app/tools/json_to_md.py:38 | definition, no contract: the dict records whose subject is `s`, in input order, the reference for a group of `by_subject` |
| JsonToMd.GroupBySubject | app/tools/json_to_md.py:34-38 | the grouping loop leaves the distinct subjects in order of first appearance as keys, and under each key the dict records with that subject, in input order |
| JsonToMd.Title | app/tools/json_to_md.py:49 | the title is "(Không tiêu đề)" only when the key is absent; a present value is rendered with `str()` |
| JsonToMd.TextOf | app/tools/json_to_md.py:50-51 | `str(item.get(key, ""))`: "" when the key is absent, otherwise `str()` of the value |
| JsonToMd.HashtagValue | app/tools/json_to_md.py:52 | `item.get("Hashtag") or []`: the value when present and truthy, otherwise the empty list |
| JsonToMd.StrAll | app/tools/json_to_md.py:54 | `[str(x) for x in hashtags]`: as many strings as entries, entry `i` being `str()` of entry `i` |
| JsonToMd.HashtagText | app/tools/json_to_md.py:53-56 | definition, no contract: a list is joined with `_join` after `str()` of each entry, any other value is `str()`'d |
| JsonToMd.FieldList | app/tools/json_to_md.py:59 | the field list is the first truthy of `Lĩnh vực(Optional)` and `Lĩnh vực`, else the empty list |
| JsonToMd.FieldNames | app/tools/json_to_md.py:63-70 | no more names than entries; `FieldNamesOne` and `FieldNamesAppend` state which names are taken and in what order |
| JsonToMd.ItemNames | app/tools/json_to_md.py:59-70 | definition, no contract: `vn_names` or `en_names`, empty when the field value is not a list |
| JsonToMd.CollectFieldNames | app/tools/json_to_md.py:60-70 | the field loop collects, in order, `str()` of every truthy Vietnamese and English name of the dict entries |
| JsonToMd.TitleLine | app/tools/json_to_md.py:73 | definition, no contract: `- ` and the escaped title; see `RecordSelect` and `DocumentTitles` |
| JsonToMd.Prefix | app/tools/json_to_md.py:76-87 | definition, no contract: the label of each of the six sub-bullets |
| JsonToMd.DetailText | app/tools/json_to_md.py:76-87 | a sub-bullet is its label, then the escaped value, then nothing more except the backtick that closes the `id_course` code span its label opens |
| JsonToMd.Bullets | app/tools/json_to_md.py:72-87 | definition, no contract: the title bullet, then each sub-bullet under its test, in the source's order, each line built by `DetailText`; see `RecordLinesByDetail` |
| JsonToMd.RecordLines | app/tools/json_to_md.py:48-87 | definition, no contract: `Bullets` of the values the record loop reads; see `DetailShownIff` |
| JsonToMd.AppendBullets | app/tools/json_to_md.py:72-87 | the record's `lines.append` calls add the title bullet and then each sub-bullet whose test holds, in the fixed order |
| JsonToMd.EmitRecord | app/tools/json_to_md.py:48-87 | one pass of the record loop appends exactly the record's lines |
| JsonToMd.EmitRecords | app/tools/json_to_md.py:48-87 | the record loop appends the lines of the subject's records one record after the other |
| JsonToMd.RecordsLines | app/tools/json_to_md.py:48-87 | definition, no contract: the lines of the records one after the other, what the record loop appends; see `RecordsSelect` |
| JsonToMd.HeadingLine | app/tools/json_to_md.py:45 | definition, no contract: `## Môn học: ` and the escaped subject; see `HeadingLineInjective` |
| JsonToMd.Header | app/tools/json_to_md.py:40-42 | definition, no contract: the title line and a blank line |
| JsonToMd.Section | app/tools/json_to_md.py:45-89 | definition, no contract: heading, blank line, the records' lines, blank line |
| JsonToMd.Sections | app/tools/json_to_md.py:44-89 | definition, no contract: the sections of the given subjects in order; see `SectionsSelect` |
| JsonToMd.Document | app/tools/json_to_md.py:40-89 | definition, no contract: the list `lines` after the subject loop; see `DocumentHeadings` and `DocumentTitles` |
| JsonToMd.EmitSection | app/tools/json_to_md.py:45-89 | one pass of the subject loop appends the heading, a blank line, the records' lines and a blank line |
| JsonToMd.EmitSections | app/tools/json_to_md.py:44-89 | the subject loop appends one section per subject of the sorted order, each with that subject's group |
| JsonToMd.EmitSubjects | app/tools/json_to_md.py:44-89 | from the grouped records, sorting the keys and running the subject loop appends exactly the sections in heading order |
| JsonToMd.Render | app/tools/json_to_md.py:91 | the text ends in exactly one newline, after a non-space character, or is just "\n" when the joined lines are all whitespace; before the newline lies a prefix of the joined lines, and only whitespace was cut |
| JsonToMd.JsonToMarkdown | app/tools/json_to_md.py:27-91 | definition, no contract: the error without a `data` list, else the rendered `Document`; `Convert` is proved to return it |
| JsonToMd.Convert | app/tools/json_to_md.py:27-91 | `json_to_markdown` fails exactly when `data` is absent or not a list, and otherwise returns the rendered document |
| JsonToMdFacts.SubjectsAt | app/tools/json_to_md.py:37 | the i-th subject is the subject of the i-th dict record |
| JsonToMdFacts.DistinctNoDup | app/tools/json_to_md.py:34-38 | no subject is a key twice |
| JsonToMdFacts.DistinctFirstAppearance | app/tools/json_to_md.py:34-38 | the keys are in order of first appearance: a later key first occurs after every earlier key's first occurrence |
| JsonToMdFacts.SubjectOrderMembers | app/tools/json_to_md.py:34-44 | a subject gets a heading exactly when some dict record has that subject |
| JsonToMdFacts.SubjectOrderSpec | app/tools/json_to_md.py:44 | the headings' subjects are distinct, sorted by their lower-cased label, and those with the same lower-cased label keep their order of first appearance |
| JsonToMdFacts.WithSubjectAppend | app/tools/json_to_md.py:38 | a subject's group of two runs of records is the group of the first run followed by that of the second |
| JsonToMdFacts.DictRecordsAppend | app/tools/json_to_md.py:35-36 | the dict records of two runs of elements are those of the first followed by those of the second |
| JsonToMdFacts.DictRecordsOne | app/tools/json_to_md.py:35-36 | a single element yields its own dict when it is one, and nothing otherwise |
| JsonToMdFacts.FieldNamesAppend | app/tools/json_to_md.py:63-70 | the names of two runs of field entries are those of the first followed by those of the second |
| JsonToMdFacts.FieldNamesOne | app/tools/json_to_md.py:63-70 | one entry contributes `str()` of its name exactly when it is a dict whose value at the key is truthy, and nothing otherwise |
| JsonToMdFacts.NonDictIgnored | app/tools/json_to_md.py:35-36 | removing an element that is not a dict from `data` does not change the document |
| JsonToMdFacts.DictRecordsEmpty | app/tools/json_to_md.py:35-36 | no record is grouped exactly when no element of `data` is a dict |
| JsonToMdFacts.Shown | app/tools/json_to_md.py:76-86 | definition, no contract: the six tests, non-empty text for ID, Mô tả and id_course, a truthy raw value for Hashtag, a non-empty name list for the two Lĩnh vực lines; see `DetailShownIff` |
| JsonToMdFacts.DetailValue | app/tools/json_to_md.py:49-70 | definition, no contract: the value each sub-bullet shows, as the record loop computes it |
| JsonToMdFacts.DetailLine | app/tools/json_to_md.py:76-87 | every sub-bullet starts with its own label and is indented |
| JsonToMdFacts.RecordLinesByDetail | app/tools/json_to_md.py:72-87 | a record's lines are its title bullet, then the shown sub-bullets in the order ID, Mô tả, Hashtag, id_course, Lĩnh vực, Lĩnh vực (EN) |
| JsonToMdFacts.KeyOfLine | app/tools/json_to_md.py:76-87 | the kind of a sub-bullet can be read back from its line |
| JsonToMdFacts.DetailLineInjective | app/tools/json_to_md.py:76-87 | two kinds of sub-bullet never produce the same line |
| JsonToMdFacts.DetailShownIff | app/tools/json_to_md.py:76-87 | a sub-bullet is among the record's lines exactly when its test holds: non-empty text for ID, Mô tả and id_course, a truthy raw value for Hashtag, a non-empty name list for the two Lĩnh vực lines |
| JsonToMdFacts.HashtagOfEmptyString | app/tools/json_to_md.py:52-54 | a hashtag list `[""]` gives an empty `  - Hashtag: ` line |
| JsonToMdFacts.DetailLinesNone | app/tools/json_to_md.py:76-87 | when no test holds, no sub-bullet is emitted |
| JsonToMdFacts.TitleOnly | app/tools/json_to_md.py:72-87 | a record without code, description, hashtags, course and fields is its title bullet alone |
| JsonToMdFacts.RecordSelect | app/tools/json_to_md.py:72-87 | of a record's entries in `lines`, only the title is a top bullet, and none is a heading |
| JsonToMdFacts.RecordsSelect | app/tools/json_to_md.py:48-87 | the lines of a run of records hold no heading, and their top bullets are the records' titles in order |
| JsonToMdFacts.SectionSelect | app/tools/json_to_md.py:45-89 | of a section's lines, one is a heading, its own, and its top bullets are its records' titles in order |
| JsonToMdFacts.SectionsSelect | app/tools/json_to_md.py:44-89 | the headings among the sections' lines are those of the subjects in order, and the top bullets are each subject's titles in turn |
| JsonToMdFacts.DocumentHeadings | app/tools/json_to_md.py:40-45 | the headings in the list `lines` are those of the subjects in the sorted order, with no two alike |
| JsonToMdFacts.DocumentTitles | app/tools/json_to_md.py:47-73 | the list `lines` holds exactly one title bullet per dict record, and no other top bullet |
| JsonToMdFacts.HeadingLinesNoDup | app/tools/json_to_md.py:45 | distinct subjects have distinct headings |
| JsonToMdFacts.OutputHead | app/tools/json_to_md.py:40-45 | with a dict record, the text begins with `# ` and the escaped message, a blank line and `## Môn học:` |
| JsonToMdFacts.OutputEnds | app/tools/json_to_md.py:40-91 | with a `data` list, the text has at least two characters and ends in one newline right after a character that is not whitespace |
| JsonToMdFacts.OutputNoRecords | app/tools/json_to_md.py:40-42 | with no dict record, the text is the title line with trailing whitespace cut and one newline |

## Left out

- `main` (lines 94-115) is not part of this model. It parses arguments, reads and writes files, and checks that the top-level JSON is an object; the model starts from that object.
- `app/api/convert.py` and `app/main.py` are not part of this model. They form the presentation-conversion service, which does not use this converter.
- Python's `str()` of non-string values (numbers, booleans, None, lists, dicts) is a parameter `repr`, not Python's repr rules. Only strings are rendered as themselves.
- Python's `str.lower` (full Unicode case mapping) is a parameter `lower`. The case-insensitive order is proved for any such function.
- Floats are exact reals. Only their truthiness matters to the model, and their printing is part of `repr`.
- Two kinds of value that `json.loads` accepts cannot be represented: lone surrogates (an unpaired `\ud800` escape) are not a Dafny `char`, and `NaN` and `Infinity` (both truthy) are not a `real`. Neither changes a proved property, since strings are only escaped, joined and compared, and a number only matters through its truthiness and `repr`.
- Dict key order of JSON objects is not modelled: objects are maps. The converter itself reads them only through `get`, but `str()` of a dict value (a dict title, subject or hashtag entry) prints its keys in insertion order; that order is lost, and that rendering lies inside the `repr` parameter. The key order of `by_subject` is modelled by the sequence of first appearances.
- The only error modelled is the `ValueError` of line 31. Python exceptions raised from inside `str()` or `str.lower` cannot be modelled with parameters that are total functions.
- JsonToMdFacts.DocumentTitles: counts the title bullets among the entries of the list `lines`, not among the lines of the returned text. A value that contains a newline (a title such as "A\n- B") is one entry of `lines` but becomes several lines of text once `"\n".join` runs, so the text may hold more `- ` lines than there are records. The same holds for `DocumentHeadings`, `RecordSelect` and `SectionSelect`.
- JsonToMdFacts.OutputHead: states how the text begins, not all of it. The whole text is `JsonToMarkdown`, which `JsonToMd.Convert` is proved to return.
