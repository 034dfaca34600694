/** `json_to_markdown`: a JSON document holding a `data` list of video records
    becomes a Markdown bullet list grouped under one heading per subject.

    The functions below specify the output; the methods follow the Python
    code statement by statement (a dict filled in a loop, a list of lines
    grown by `append`) and are proved to produce exactly that output. */
module JsonToMd {
  import opened Json
  import opened MdEscape
  import opened Joining
  import opened PyStr
  import opened Seqs

  const DefaultMessage: string := "Danh sách Video"
  const SubjectKey: string := "Môn học"
  const DefaultSubject: string := "Khác"
  const TitleKey: string := "Tiêu đề"
  const DefaultTitle: string := "(Không tiêu đề)"
  const CodeKey: string := "Mã"
  const DescriptionKey: string := "Mô tả"
  const HashtagKey: string := "Hashtag"
  const CourseKey: string := "id_course"
  const FieldsOptionalKey: string := "Lĩnh vực(Optional)"
  const FieldsKey: string := "Lĩnh vực"
  const NameVnKey: string := "FIELD_OF_STUDY_NAME"
  const NameEnKey: string := "FIELD_OF_STUDY_NAME_EN"
  const HeadingPrefix: string := "## Môn học: "

  /** The optional lines of a record, in the order they are emitted. */
  datatype Detail = Code | Description | Hashtag | Course | FieldsVn | FieldsEn

  /** The fixed start of a detail's line, up to its value; `id_course`
      opens an inline code span. */
  function Prefix(d: Detail): (r: string)
  {
    match d
    case Code => "  - ID: "
    case Description => "  - Mô tả: "
    case Hashtag => "  - Hashtag: "
    case Course => "  - id_course: `"
    case FieldsVn => "  - Lĩnh vực: "
    case FieldsEn => "  - Lĩnh vực (EN): "
  }

  /** The sub-bullet of `d` showing `value`: the label, then the escaped
      value, with the `id_course` code span closed. */
  function DetailText(d: Detail, value: string): (r: string)
    ensures Prefix(d) <= r
    ensures EscapeMd(value) <= r[|Prefix(d)|..]
    ensures |r| == |Prefix(d)| + |EscapeMd(value)| + (if d == Course then 1 else 0)
    ensures d == Course ==> Prefix(d)[|Prefix(d)| - 1] == '`' && r[|r| - 1] == '`'
  {
    if d == Course then Prefix(d) + EscapeMd(value) + "`" else Prefix(d) + EscapeMd(value)
  }

  /** The `ValueError` raised when `data` is missing or is not a list. */
  datatype ConvertError = MissingDataList

  datatype Result<T> = Success(value: T) | Failure(error: ConvertError)

  /** `obj["data"]` exists and is a list. */
  predicate HasDataList(obj: Obj) {
    "data" in obj && obj["data"].JList?
  }

  /** The document title: the first truthy of `message` and `Message`, else a fixed default. */
  function Message(repr: Json -> string, obj: Obj): (r: string)
    ensures "message" in obj && Truthy(obj["message"]) ==> r == Str(repr, obj["message"])
    ensures !("message" in obj && Truthy(obj["message"])) && "Message" in obj && Truthy(obj["Message"])
      ==> r == Str(repr, obj["Message"])
    ensures !("message" in obj && Truthy(obj["message"])) && !("Message" in obj && Truthy(obj["Message"]))
      ==> r == DefaultMessage
  {
    Str(repr, GetOr(obj, "message", GetOr(obj, "Message", JStr(DefaultMessage))))
  }

  // ---------------------------------------------------------------------------
  // Grouping by subject

  /** The elements of `data` that are dicts, in order; the others are skipped. */
  function DictRecords(data: seq<Json>): (r: seq<Obj>)
    ensures |r| <= |data|
  {
    if data == [] then []
    else
      var last := data[|data| - 1];
      DictRecords(data[..|data| - 1]) + if last.JObj? then [last.fields] else []
  }

  /** `str(item.get("Môn học", "Khác"))`: the default applies only when the
      key is absent; a present value, even an empty or falsy one, is kept. */
  function Subject(repr: Json -> string, item: Obj): (r: string)
    ensures SubjectKey !in item ==> r == DefaultSubject
    ensures SubjectKey in item ==> r == Str(repr, item[SubjectKey])
  {
    GetStr(repr, item, SubjectKey, DefaultSubject)
  }

  function Subjects(repr: Json -> string, recs: seq<Obj>): (r: seq<string>)
    ensures |r| == |recs|
  {
    if recs == [] then [] else Subjects(repr, recs[..|recs| - 1]) + [Subject(repr, recs[|recs| - 1])]
  }

  /** The distinct elements of `xs`, in order of first appearance: the key
      order of a Python dict filled from `xs`. */
  function Distinct(xs: seq<string>): (r: seq<string>)
    ensures forall x :: x in r <==> x in xs
  {
    if xs == [] then []
    else
      var d := Distinct(xs[..|xs| - 1]);
      var x := xs[|xs| - 1];
      if x in d then d else d + [x]
  }

  /** The records whose subject is `s`, in input order. */
  function WithSubject(repr: Json -> string, recs: seq<Obj>, s: string): (r: seq<Obj>)
  {
    if recs == [] then []
    else
      var last := recs[|recs| - 1];
      WithSubject(repr, recs[..|recs| - 1], s) + if Subject(repr, last) == s then [last] else []
  }

  /** The headings' order: `sorted(by_subject.keys(), key=lambda s: s.lower())`,
      where `lower` is Python's `str.lower`. */
  function SubjectOrder(repr: Json -> string, lower: string -> string, recs: seq<Obj>): (r: seq<string>)
  {
    SortByKey(Distinct(Subjects(repr, recs)), lower)
  }

  /** `keys` and `groups` are the dict `by_subject` after grouping `recs`:
      its keys in insertion order and the records under each. */
  ghost predicate Grouped(repr: Json -> string, recs: seq<Obj>, keys: seq<string>, groups: map<string, seq<Obj>>) {
    && keys == Distinct(Subjects(repr, recs))
    && (forall s :: s in groups <==> s in keys)
    && (forall s :: s in groups ==> groups[s] == WithSubject(repr, recs, s))
  }

  /** The grouping loop: `by_subject[subject].append(item)` for every dict
      item. `keys` is the dict's insertion order, `groups` its contents. */
  method GroupBySubject(repr: Json -> string, data: seq<Json>)
    returns (keys: seq<string>, groups: map<string, seq<Obj>>)
    ensures keys == Distinct(Subjects(repr, DictRecords(data)))
    ensures forall s :: s in groups <==> s in keys
    ensures forall s :: s in groups ==> groups[s] == WithSubject(repr, DictRecords(data), s)
  {
    keys, groups := [], map[];
    var i := 0;
    while i < |data|
      invariant 0 <= i <= |data|
      invariant Grouped(repr, DictRecords(data[..i]), keys, groups)
    {
      var item := data[i];
      DictRecordsSnoc(data, i);
      if item.JObj? {
        var subject := Subject(repr, item.fields);
        if subject in groups {
          GroupKnown(repr, DictRecords(data[..i]), item.fields, keys, groups);
          groups := groups[subject := groups[subject] + [item.fields]];
        } else {
          GroupNew(repr, DictRecords(data[..i]), item.fields, keys, groups);
          keys := keys + [subject];
          groups := groups[subject := [item.fields]];
        }
      }
      i := i + 1;
    }
    assert data[..i] == data;
  }

  /** Grouping a record whose subject is already a key appends it to that
      subject's group and changes nothing else. */
  lemma GroupKnown(repr: Json -> string, recs: seq<Obj>, r: Obj, keys: seq<string>, groups: map<string, seq<Obj>>)
    requires Grouped(repr, recs, keys, groups)
    requires Subject(repr, r) in groups
    ensures Grouped(repr, recs + [r], keys, groups[Subject(repr, r) := groups[Subject(repr, r)] + [r]])
  {
    DistinctSnoc(repr, recs, r);
    GroupsSnoc(repr, recs, r, groups);
  }

  /** Appending a record to its subject's group keeps every group equal to
      the records of its subject. */
  lemma GroupsSnoc(repr: Json -> string, recs: seq<Obj>, r: Obj, groups: map<string, seq<Obj>>)
    requires Subject(repr, r) in groups
    requires forall s :: s in groups ==> groups[s] == WithSubject(repr, recs, s)
    ensures var g := groups[Subject(repr, r) := groups[Subject(repr, r)] + [r]];
      forall t :: t in g ==> g[t] == WithSubject(repr, recs + [r], t)
  {
    var s := Subject(repr, r);
    var g := groups[s := groups[s] + [r]];
    forall t | t in g
      ensures g[t] == WithSubject(repr, recs + [r], t)
    {
      WithSubjectSnoc(repr, recs, r, t);
      AppendEmpty(WithSubject(repr, recs, t));
    }
  }

  /** Grouping a record with a new subject adds the subject as the last key,
      with a group holding just that record. */
  lemma GroupNew(repr: Json -> string, recs: seq<Obj>, r: Obj, keys: seq<string>, groups: map<string, seq<Obj>>)
    requires Grouped(repr, recs, keys, groups)
    requires Subject(repr, r) !in groups
    ensures Grouped(repr, recs + [r], keys + [Subject(repr, r)], groups[Subject(repr, r) := [r]])
  {
    assert Subject(repr, r) !in Subjects(repr, recs);
    DistinctSnoc(repr, recs, r);
    NewGroupSnoc(repr, recs, r, groups);
  }

  /** A new subject's group is its one record; the other groups keep theirs. */
  lemma NewGroupSnoc(repr: Json -> string, recs: seq<Obj>, r: Obj, groups: map<string, seq<Obj>>)
    requires Subject(repr, r) !in Subjects(repr, recs)
    requires forall s :: s in groups ==> groups[s] == WithSubject(repr, recs, s)
    ensures var g := groups[Subject(repr, r) := [r]];
      forall t :: t in g ==> g[t] == WithSubject(repr, recs + [r], t)
  {
    var s := Subject(repr, r);
    var g := groups[s := [r]];
    WithSubjectAbsent(repr, recs, s);
    forall t | t in g
      ensures g[t] == WithSubject(repr, recs + [r], t)
    {
      WithSubjectSnoc(repr, recs, r, t);
      AppendEmpty(WithSubject(repr, recs, t));
      AppendEmpty([r]);
    }
  }

  lemma DictRecordsSnoc(data: seq<Json>, i: nat)
    requires i < |data|
    ensures data[i].JObj? ==> DictRecords(data[..i + 1]) == DictRecords(data[..i]) + [data[i].fields]
    ensures !data[i].JObj? ==> DictRecords(data[..i + 1]) == DictRecords(data[..i])
  {
    assert data[..i + 1][..i] == data[..i];
    assert DictRecords(data[..i]) + [] == DictRecords(data[..i]);
  }

  lemma SubjectsSnoc(repr: Json -> string, recs: seq<Obj>, r: Obj)
    ensures Subjects(repr, recs + [r]) == Subjects(repr, recs) + [Subject(repr, r)]
  {
    assert (recs + [r])[..|recs|] == recs;
  }

  /** Adding one record to `recs`: its subject joins the key order if new. */
  lemma DistinctSnoc(repr: Json -> string, recs: seq<Obj>, r: Obj)
    ensures Distinct(Subjects(repr, recs + [r])) ==
      var d := Distinct(Subjects(repr, recs));
      if Subject(repr, r) in d then d else d + [Subject(repr, r)]
  {
    SubjectsSnoc(repr, recs, r);
    var xs := Subjects(repr, recs) + [Subject(repr, r)];
    assert xs[..|xs| - 1] == Subjects(repr, recs);
  }

  /** Adding one record to `recs` appends it to its own subject's group only. */
  lemma WithSubjectSnoc(repr: Json -> string, recs: seq<Obj>, r: Obj, s: string)
    ensures WithSubject(repr, recs + [r], s) == WithSubject(repr, recs, s) + if Subject(repr, r) == s then [r] else []
  {
    assert (recs + [r])[..|recs|] == recs;
  }

  lemma {:induction false} WithSubjectAbsent(repr: Json -> string, recs: seq<Obj>, s: string)
    requires s !in Subjects(repr, recs)
    ensures WithSubject(repr, recs, s) == []
  {
    if recs != [] {
      var init := recs[..|recs| - 1];
      assert Subjects(repr, recs)[..|recs| - 1] == Subjects(repr, init);
      WithSubjectAbsent(repr, init, s);
    }
  }

  // ---------------------------------------------------------------------------
  // The lines of one record

  /** `str(item.get("Tiêu đề", "(Không tiêu đề)"))`. */
  function Title(repr: Json -> string, item: Obj): (r: string)
    ensures TitleKey !in item ==> r == DefaultTitle
    ensures TitleKey in item ==> r == Str(repr, item[TitleKey])
  {
    GetStr(repr, item, TitleKey, DefaultTitle)
  }

  /** `code`, `desc` and `id_course`: `str(item.get(key, ""))`. */
  function TextOf(repr: Json -> string, item: Obj, key: string): (r: string)
    ensures key !in item ==> r == ""
    ensures key in item ==> r == Str(repr, item[key])
  {
    GetStr(repr, item, key, "")
  }

  /** `item.get("Hashtag") or []`. */
  function HashtagValue(item: Obj): (r: Json)
    ensures HashtagKey in item && Truthy(item[HashtagKey]) ==> r == item[HashtagKey]
    ensures !(HashtagKey in item && Truthy(item[HashtagKey])) ==> r == JList([])
  {
    GetOr(item, HashtagKey, JList([]))
  }

  /** `[str(x) for x in xs]`. */
  function StrAll(repr: Json -> string, xs: seq<Json>): (r: seq<string>)
    ensures |r| == |xs|
    ensures forall i :: 0 <= i < |xs| ==> r[i] == Str(repr, xs[i])
  {
    if xs == [] then [] else [Str(repr, xs[0])] + StrAll(repr, xs[1..])
  }

  /** `hashtag_str`: a list is joined with `_join`, anything else is `str()`'d. */
  function HashtagText(repr: Json -> string, item: Obj): (r: string)
  {
    var h := HashtagValue(item);
    if h.JList? then JoinNonEmpty(StrAll(repr, h.items)) else Str(repr, h)
  }

  /** `item.get("Lĩnh vực(Optional)") or item.get("Lĩnh vực") or []`. */
  function FieldList(item: Obj): (r: Json)
    ensures FieldsOptionalKey in item && Truthy(item[FieldsOptionalKey]) ==> r == item[FieldsOptionalKey]
    ensures !(FieldsOptionalKey in item && Truthy(item[FieldsOptionalKey])) && FieldsKey in item && Truthy(item[FieldsKey])
      ==> r == item[FieldsKey]
    ensures !(FieldsOptionalKey in item && Truthy(item[FieldsOptionalKey])) && !(FieldsKey in item && Truthy(item[FieldsKey]))
      ==> r == JList([])
  {
    GetOr(item, FieldsOptionalKey, GetOr(item, FieldsKey, JList([])))
  }

  /** The names collected from a field list: `str(f.get(key))` for every dict
      entry `f` whose value at `key` is truthy, in order. */
  function FieldNames(repr: Json -> string, fields: seq<Json>, key: string): (r: seq<string>)
    ensures |r| <= |fields|
  {
    if fields == [] then []
    else
      var f := fields[|fields| - 1];
      FieldNames(repr, fields[..|fields| - 1], key)
      + if f.JObj? && key in f.fields && Truthy(f.fields[key]) then [Str(repr, f.fields[key])] else []
  }

  /** `vn_names` (for `NameVnKey`) or `en_names` (for `NameEnKey`). */
  function ItemNames(repr: Json -> string, item: Obj, key: string): (r: seq<string>)
  {
    var f := FieldList(item);
    if f.JList? then FieldNames(repr, f.items, key) else []
  }

  /** `[line]` when `shown`, else nothing. */
  function Opt(shown: bool, line: string): (r: seq<string>)
  {
    if shown then [line] else []
  }

  function TitleLine(repr: Json -> string, item: Obj): (r: string)
  {
    "- " + EscapeMd(Title(repr, item))
  }

  /** The lines of a record from its values as the loop reads them: the top
      bullet, then each sub-bullet whose value is present. */
  function Bullets(title: string, code: string, desc: string, tagsShown: bool, tags: string,
                   course: string, vn: seq<string>, en: seq<string>): (r: seq<string>)
  {
    ["- " + EscapeMd(title)]
    + Opt(code != "", DetailText(Code, code))
    + Opt(desc != "", DetailText(Description, desc))
    + Opt(tagsShown, DetailText(Hashtag, tags))
    + Opt(course != "", DetailText(Course, course))
    + Opt(vn != [], DetailText(FieldsVn, JoinNonEmpty(vn)))
    + Opt(en != [], DetailText(FieldsEn, JoinNonEmpty(en)))
  }

  /** The lines the record loop emits for `item`. */
  function RecordLines(repr: Json -> string, item: Obj): (r: seq<string>)
  {
    Bullets(Title(repr, item), TextOf(repr, item, CodeKey), TextOf(repr, item, DescriptionKey),
            Truthy(HashtagValue(item)), HashtagText(repr, item), TextOf(repr, item, CourseKey),
            ItemNames(repr, item, NameVnKey), ItemNames(repr, item, NameEnKey))
  }

  /** The inner field loop: fills `vn_names` and `en_names`. */
  method CollectFieldNames(repr: Json -> string, fields: seq<Json>)
    returns (vnNames: seq<string>, enNames: seq<string>)
    ensures vnNames == FieldNames(repr, fields, NameVnKey)
    ensures enNames == FieldNames(repr, fields, NameEnKey)
  {
    vnNames, enNames := [], [];
    var i := 0;
    while i < |fields|
      invariant 0 <= i <= |fields|
      invariant vnNames == FieldNames(repr, fields[..i], NameVnKey)
      invariant enNames == FieldNames(repr, fields[..i], NameEnKey)
    {
      var f := fields[i];
      assert fields[..i + 1][..i] == fields[..i];
      if f.JObj? {
        if NameVnKey in f.fields && Truthy(f.fields[NameVnKey]) {
          vnNames := vnNames + [Str(repr, f.fields[NameVnKey])];
        }
        if NameEnKey in f.fields && Truthy(f.fields[NameEnKey]) {
          enNames := enNames + [Str(repr, f.fields[NameEnKey])];
        }
      }
      i := i + 1;
    }
    assert fields[..i] == fields;
  }

  /** The body of the record loop: reads the record's values, then appends its lines to `lines`. */
  method EmitRecord(repr: Json -> string, item: Obj, lines: seq<string>) returns (out: seq<string>)
    ensures out == lines + RecordLines(repr, item)
  {
    var title := GetStr(repr, item, TitleKey, DefaultTitle);
    var code := GetStr(repr, item, CodeKey, "");
    var desc := GetStr(repr, item, DescriptionKey, "");
    var hashtags := GetOr(item, HashtagKey, JList([]));
    var hashtagStr := if hashtags.JList? then JoinNonEmpty(StrAll(repr, hashtags.items)) else Str(repr, hashtags);
    var idCourse := GetStr(repr, item, CourseKey, "");
    var fields := GetOr(item, FieldsOptionalKey, GetOr(item, FieldsKey, JList([])));
    var vnNames: seq<string>, enNames: seq<string> := [], [];
    if fields.JList? {
      vnNames, enNames := CollectFieldNames(repr, fields.items);
    }
    RecordValues(repr, item, title, code, desc, hashtags, hashtagStr, idCourse, fields, vnNames, enNames);
    out := AppendBullets(lines, title, code, desc, Truthy(hashtags), hashtagStr, idCourse, vnNames, enNames);
  }

  /** The values the record loop reads are those `RecordLines` is built from. */
  lemma RecordValues(repr: Json -> string, item: Obj, title: string, code: string, desc: string,
                     hashtags: Json, hashtagStr: string, idCourse: string, fields: Json,
                     vnNames: seq<string>, enNames: seq<string>)
    requires title == GetStr(repr, item, TitleKey, DefaultTitle)
    requires code == GetStr(repr, item, CodeKey, "") && desc == GetStr(repr, item, DescriptionKey, "")
    requires hashtags == GetOr(item, HashtagKey, JList([]))
    requires hashtagStr == if hashtags.JList? then JoinNonEmpty(StrAll(repr, hashtags.items)) else Str(repr, hashtags)
    requires idCourse == GetStr(repr, item, CourseKey, "")
    requires fields == GetOr(item, FieldsOptionalKey, GetOr(item, FieldsKey, JList([])))
    requires vnNames == (if fields.JList? then FieldNames(repr, fields.items, NameVnKey) else [])
    requires enNames == (if fields.JList? then FieldNames(repr, fields.items, NameEnKey) else [])
    ensures Bullets(title, code, desc, Truthy(hashtags), hashtagStr, idCourse, vnNames, enNames) == RecordLines(repr, item)
  {
  }

  /** The `lines.append` calls of the record loop, one per line shown. */
  method AppendBullets(lines: seq<string>, title: string, code: string, desc: string, tagsShown: bool,
                       tags: string, course: string, vn: seq<string>, en: seq<string>)
    returns (out: seq<string>)
    ensures out == lines + Bullets(title, code, desc, tagsShown, tags, course, vn, en)
  {
    // `acc` is the part of the record emitted so far.
    ghost var acc := ["- " + EscapeMd(title)];
    out := lines + ["- " + EscapeMd(title)];
    AppendStep(lines, acc, code != "", DetailText(Code, code));
    if code != "" {
      out := out + [DetailText(Code, code)];
    }
    acc := acc + Opt(code != "", DetailText(Code, code));
    AppendStep(lines, acc, desc != "", DetailText(Description, desc));
    if desc != "" {
      out := out + [DetailText(Description, desc)];
    }
    acc := acc + Opt(desc != "", DetailText(Description, desc));
    AppendStep(lines, acc, tagsShown, DetailText(Hashtag, tags));
    if tagsShown {
      out := out + [DetailText(Hashtag, tags)];
    }
    acc := acc + Opt(tagsShown, DetailText(Hashtag, tags));
    AppendStep(lines, acc, course != "", DetailText(Course, course));
    if course != "" {
      out := out + [DetailText(Course, course)];
    }
    acc := acc + Opt(course != "", DetailText(Course, course));
    AppendStep(lines, acc, vn != [], DetailText(FieldsVn, JoinNonEmpty(vn)));
    if vn != [] {
      out := out + [DetailText(FieldsVn, JoinNonEmpty(vn))];
    }
    acc := acc + Opt(vn != [], DetailText(FieldsVn, JoinNonEmpty(vn)));
    AppendStep(lines, acc, en != [], DetailText(FieldsEn, JoinNonEmpty(en)));
    if en != [] {
      out := out + [DetailText(FieldsEn, JoinNonEmpty(en))];
    }
    acc := acc + Opt(en != [], DetailText(FieldsEn, JoinNonEmpty(en)));
  }

  lemma AppendStep(lines: seq<string>, acc: seq<string>, shown: bool, line: string)
    ensures lines + (acc + Opt(shown, line)) == if shown then lines + acc + [line] else lines + acc
  {
    if !shown {
      assert acc + [] == acc;
    }
  }

  // ---------------------------------------------------------------------------
  // The whole document

  /** The lines of a run of records, one record after the other. */
  function RecordsLines(repr: Json -> string, items: seq<Obj>): (r: seq<string>)
  {
    if items == [] then []
    else RecordsLines(repr, items[..|items| - 1]) + RecordLines(repr, items[|items| - 1])
  }

  function HeadingLine(subject: string): (r: string)
  {
    HeadingPrefix + EscapeMd(subject)
  }

  /** One subject's heading, a blank line, its records, and a blank line. */
  function Section(repr: Json -> string, subject: string, items: seq<Obj>): (r: seq<string>)
  {
    [HeadingLine(subject), ""] + RecordsLines(repr, items) + [""]
  }

  /** The sections of `subjects`, in that order, each with the records of `recs` under it. */
  function Sections(repr: Json -> string, recs: seq<Obj>, subjects: seq<string>): (r: seq<string>)
  {
    if subjects == [] then []
    else
      var s := subjects[|subjects| - 1];
      Sections(repr, recs, subjects[..|subjects| - 1]) + Section(repr, s, WithSubject(repr, recs, s))
  }

  function Header(repr: Json -> string, obj: Obj): (r: seq<string>)
  {
    ["# " + EscapeMd(Message(repr, obj)), ""]
  }

  /** The list `lines` once every subject has been emitted. */
  function Document(repr: Json -> string, lower: string -> string, obj: Obj, data: seq<Json>): (r: seq<string>)
  {
    var recs := DictRecords(data);
    Header(repr, obj) + Sections(repr, recs, SubjectOrder(repr, lower, recs))
  }

  /** `"\n".join(lines).rstrip() + "\n"`. */
  function Render(lines: seq<string>): (r: string)
    ensures |r| >= 1 && r[|r| - 1] == '\n'
    ensures |r| == 1 || !IsSpace(r[|r| - 2])
    ensures r[..|r| - 1] <= JoinWith("\n", lines)
    ensures forall i :: |r| - 1 <= i < |JoinWith("\n", lines)| ==> IsSpace(JoinWith("\n", lines)[i])
  {
    RStrip(JoinWith("\n", lines)) + "\n"
  }

  /** What `json_to_markdown(obj)` returns or raises. */
  function JsonToMarkdown(repr: Json -> string, lower: string -> string, obj: Obj): (r: Result<string>)
  {
    if !HasDataList(obj) then Failure(MissingDataList)
    else Success(Render(Document(repr, lower, obj, obj["data"].items)))
  }

  /** One pass of the subject loop: the heading, a blank line, every record
      of the subject, and a blank line. */
  method EmitSection(repr: Json -> string, subject: string, items: seq<Obj>, lines: seq<string>)
    returns (out: seq<string>)
    ensures out == lines + Section(repr, subject, items)
  {
    out := lines + [HeadingPrefix + EscapeMd(subject)];
    out := out + [""];
    out := EmitRecords(repr, items, out);
    SectionShape(lines, HeadingLine(subject), RecordsLines(repr, items));
    out := out + [""];
  }

  /** The record loop of one subject. */
  method EmitRecords(repr: Json -> string, items: seq<Obj>, lines: seq<string>) returns (out: seq<string>)
    ensures out == lines + RecordsLines(repr, items)
  {
    out := lines;
    assert lines + [] == lines;
    var j := 0;
    while j < |items|
      invariant 0 <= j <= |items|
      invariant out == lines + RecordsLines(repr, items[..j])
    {
      RecordsStep(repr, items, j, lines);
      out := EmitRecord(repr, items[j], out);
      j := j + 1;
    }
    assert items[..j] == items;
  }

  lemma RecordsStep(repr: Json -> string, items: seq<Obj>, j: nat, lines: seq<string>)
    requires j < |items|
    ensures lines + RecordsLines(repr, items[..j + 1]) == lines + RecordsLines(repr, items[..j]) + RecordLines(repr, items[j])
  {
    assert items[..j + 1][..j] == items[..j];
    AppendAssoc(lines, RecordsLines(repr, items[..j]), RecordLines(repr, items[j]));
  }

  lemma AppendAssoc(a: seq<string>, b: seq<string>, c: seq<string>)
    ensures (a + b) + c == a + (b + c)
  {
  }

  lemma SectionShape(lines: seq<string>, heading: string, body: seq<string>)
    ensures lines + ([heading, ""] + body + [""]) == lines + [heading] + [""] + body + [""]
  {
  }

  /** The subject loop: one section per subject of `order`, in that order,
      each holding the subject's group. */
  method EmitSections(repr: Json -> string, recs: seq<Obj>, order: seq<string>,
                      groups: map<string, seq<Obj>>, lines: seq<string>)
    returns (out: seq<string>)
    requires forall s :: s in order ==> s in groups && groups[s] == WithSubject(repr, recs, s)
    ensures out == lines + Sections(repr, recs, order)
  {
    out := lines;
    SectionsStart(repr, recs, order, lines);
    var i := 0;
    while i < |order|
      invariant 0 <= i <= |order|
      invariant out == lines + Sections(repr, recs, order[..i])
    {
      var subject := order[i];
      var group := groups[subject];
      ghost var before := out;
      out := EmitSection(repr, subject, group, out);
      SectionsStep(repr, recs, order, i, lines, before, group, out);
      i := i + 1;
    }
    assert order[..i] == order;
  }

  lemma SectionsStart(repr: Json -> string, recs: seq<Obj>, order: seq<string>, lines: seq<string>)
    ensures lines == lines + Sections(repr, recs, order[..0])
  {
    assert lines + [] == lines;
  }

  /** One more pass of the subject loop extends its invariant by one section. */
  lemma SectionsStep(repr: Json -> string, recs: seq<Obj>, order: seq<string>, i: nat, lines: seq<string>,
                     before: seq<string>, group: seq<Obj>, after: seq<string>)
    requires i < |order|
    requires before == lines + Sections(repr, recs, order[..i])
    requires group == WithSubject(repr, recs, order[i])
    requires after == before + Section(repr, order[i], group)
    ensures after == lines + Sections(repr, recs, order[..i + 1])
  {
    var done, next := order[..i], order[..i + 1];
    assert next[..|next| - 1] == done;
    SectionsSnoc(repr, recs, next);
    AppendAssoc(lines, Sections(repr, recs, done), Section(repr, order[i], group));
  }

  lemma SectionsSnoc(repr: Json -> string, recs: seq<Obj>, subjects: seq<string>)
    requires subjects != []
    ensures var s := subjects[|subjects| - 1];
      Sections(repr, recs, subjects)
      == Sections(repr, recs, subjects[..|subjects| - 1]) + Section(repr, s, WithSubject(repr, recs, s))
  {
  }

  /** `json_to_markdown`, statement by statement. `repr` is Python's `str()`
      on non-string values and `lower` is `str.lower`. */
  method Convert(repr: Json -> string, lower: string -> string, obj: Obj) returns (r: Result<string>)
    ensures r.Failure? <==> !HasDataList(obj)
    ensures r == JsonToMarkdown(repr, lower, obj)
  {
    var message := Message(repr, obj);
    if !("data" in obj && obj["data"].JList?) {
      return Failure(MissingDataList);
    }
    var data := obj["data"].items;
    var keys, groups := GroupBySubject(repr, data);

    var lines: seq<string> := [];
    lines := lines + ["# " + EscapeMd(message)];
    lines := lines + [""];
    HeaderLines(repr, obj, message, lines);

    lines := EmitSubjects(repr, lower, DictRecords(data), keys, groups, lines);
    r := Success(RStrip(JoinWith("\n", lines)) + "\n");
    ConvertResult(repr, lower, obj, lines, r);
  }

  lemma HeaderLines(repr: Json -> string, obj: Obj, message: string, lines: seq<string>)
    requires message == Message(repr, obj)
    requires lines == [] + ["# " + EscapeMd(message)] + [""]
    ensures lines == Header(repr, obj)
  {
  }

  /** The subject loop, from the grouped records: sorts the keys, then emits
      one section per key. */
  method EmitSubjects(repr: Json -> string, lower: string -> string, recs: seq<Obj>,
                      keys: seq<string>, groups: map<string, seq<Obj>>, lines: seq<string>)
    returns (out: seq<string>)
    requires keys == Distinct(Subjects(repr, recs))
    requires forall s :: s in groups <==> s in keys
    requires forall s :: s in groups ==> groups[s] == WithSubject(repr, recs, s)
    ensures out == lines + Sections(repr, recs, SubjectOrder(repr, lower, recs))
  {
    var order := SortByKey(keys, lower);
    SortedGroups(repr, lower, recs, keys, groups);
    out := EmitSections(repr, recs, order, groups, lines);
  }

  lemma ConvertResult(repr: Json -> string, lower: string -> string, obj: Obj, lines: seq<string>, r: Result<string>)
    requires HasDataList(obj)
    requires lines == Header(repr, obj) + Sections(repr, DictRecords(obj["data"].items),
                                                   SubjectOrder(repr, lower, DictRecords(obj["data"].items)))
    requires r == Success(RStrip(JoinWith("\n", lines)) + "\n")
    ensures r == JsonToMarkdown(repr, lower, obj)
  {
  }

  /** Every subject of the sorted key order has its group in `groups`. */
  lemma SortedGroups(repr: Json -> string, lower: string -> string, recs: seq<Obj>,
                     keys: seq<string>, groups: map<string, seq<Obj>>)
    requires forall s :: s in groups <==> s in keys
    requires forall s :: s in groups ==> groups[s] == WithSubject(repr, recs, s)
    ensures forall s :: s in SortByKey(keys, lower) ==> s in groups && groups[s] == WithSubject(repr, recs, s)
  {
    SortMembers(keys, lower);
  }
}
