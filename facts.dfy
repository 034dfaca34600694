/** What `json_to_markdown` promises about its output, proved of the
    functions that specify it. */
module JsonToMdFacts {
  import opened Json
  import opened MdEscape
  import opened Joining
  import opened PyStr
  import opened JsonToMd
  import opened Seqs

  // ---------------------------------------------------------------------------
  // Subjects and their order

  /** `Subjects` lists the subject of every record, position by position. */
  lemma {:induction false} SubjectsAt(repr: Json -> string, recs: seq<Obj>)
    ensures forall i :: 0 <= i < |recs| ==> Subjects(repr, recs)[i] == Subject(repr, recs[i])
  {
    if recs != [] {
      var init := recs[..|recs| - 1];
      SubjectsAt(repr, init);
      assert forall i :: 0 <= i < |init| ==> recs[i] == init[i];
    }
  }

  /** The dict's keys never repeat. */
  lemma {:induction false} DistinctNoDup(xs: seq<string>)
    ensures NoDup(Distinct(xs))
  {
    if xs != [] {
      DistinctNoDup(xs[..|xs| - 1]);
    }
  }

  /** The keys are in order of first appearance: wherever a later key occurs
      in `xs`, every earlier key has already occurred before it. */
  lemma {:induction false} DistinctFirstAppearance(xs: seq<string>)
    ensures forall i, j, l :: (0 <= i < j < |Distinct(xs)| && 0 <= l < |xs| && xs[l] == Distinct(xs)[j]
                               ==> Distinct(xs)[i] in xs[..l])
  {
    if xs != [] {
      var init := xs[..|xs| - 1];
      var d, d' := Distinct(init), Distinct(xs);
      DistinctFirstAppearance(init);
      forall i, j, l | 0 <= i < j < |d'| && 0 <= l < |xs| && xs[l] == d'[j]
        ensures d'[i] in xs[..l]
      {
        assert d'[i] == d[i];
        if j == |d| {
          // `d'[j]` is the last element, new in `xs`: it occurs first at the end.
          assert d'[j] !in init;
          assert l == |init|;
        }
        if l < |init| {
          assert d'[j] == d[j];
          assert xs[..l] == init[..l];
        } else {
          assert xs[..l] == init;
        }
      }
    }
  }

  /** The headings' subjects are the subjects of the dict records, each
      one at least once and no other. */
  lemma SubjectOrderMembers(repr: Json -> string, lower: string -> string, recs: seq<Obj>)
    ensures forall s :: (s in SubjectOrder(repr, lower, recs)
                         <==> exists i :: 0 <= i < |recs| && Subject(repr, recs[i]) == s)
  {
    var d := Distinct(Subjects(repr, recs));
    SubjectsAt(repr, recs);
    SortMembers(d, lower);
    forall s | s in d
      ensures exists i :: 0 <= i < |recs| && Subject(repr, recs[i]) == s
    {
      var i :| 0 <= i < |recs| && Subjects(repr, recs)[i] == s;
    }
  }

  /** Each subject has one heading, the headings are ordered by their
      lower-cased form, and subjects whose lower-cased forms tie keep their
      order of first appearance. */
  lemma SubjectOrderSpec(repr: Json -> string, lower: string -> string, recs: seq<Obj>)
    ensures NoDup(SubjectOrder(repr, lower, recs))
    ensures SortedByKey(SubjectOrder(repr, lower, recs), lower)
    ensures forall k :: (WithKey(SubjectOrder(repr, lower, recs), lower, k)
                         == WithKey(Distinct(Subjects(repr, recs)), lower, k))
  {
    var d := Distinct(Subjects(repr, recs));
    DistinctNoDup(Subjects(repr, recs));
    SortNoDup(d, lower);
    SortSorted(d, lower);
    forall k
      ensures WithKey(SortByKey(d, lower), lower, k) == WithKey(d, lower, k)
    {
      SortStable(d, lower, k);
    }
  }

  /** The records under a subject keep their input order: grouping a list
      made of two parts groups each part and puts the first part's records first. */
  lemma {:induction false} WithSubjectAppend(repr: Json -> string, a: seq<Obj>, b: seq<Obj>, s: string)
    ensures WithSubject(repr, a + b, s) == WithSubject(repr, a, s) + WithSubject(repr, b, s)
  {
    if b == [] {
      assert a + b == a;
      assert WithSubject(repr, a, s) + [] == WithSubject(repr, a, s);
    } else {
      var init := b[..|b| - 1];
      var last := b[|b| - 1];
      assert (a + b)[..|a + b| - 1] == a + init;
      WithSubjectAppend(repr, a, init, s);
    }
  }

  /** Elements of `data` that are not dicts are ignored. */
  lemma {:induction false} DictRecordsAppend(a: seq<Json>, b: seq<Json>)
    ensures DictRecords(a + b) == DictRecords(a) + DictRecords(b)
  {
    if b == [] {
      assert a + b == a;
      assert DictRecords(a) + [] == DictRecords(a);
    } else {
      assert (a + b)[..|a + b| - 1] == a + b[..|b| - 1];
      DictRecordsAppend(a, b[..|b| - 1]);
    }
  }

  /** A one-element `data` yields that element's own dict, or nothing when it
      is not a dict; with `DictRecordsAppend` this fixes `DictRecords` on every list. */
  lemma DictRecordsOne(v: Json)
    ensures DictRecords([v]) == if v.JObj? then [v.fields] else []
  {
    assert [v][..0] == [];
  }

  /** Removing a non-dict element from `data` leaves the output unchanged. */
  lemma NonDictIgnored(repr: Json -> string, lower: string -> string, obj: Obj,
                       a: seq<Json>, v: Json, b: seq<Json>)
    requires !v.JObj?
    ensures Document(repr, lower, obj, a + [v] + b) == Document(repr, lower, obj, a + b)
  {
    DictRecordsAppend(a + [v], b);
    DictRecordsAppend(a, [v]);
    DictRecordsAppend(a, b);
    DictRecordsOne(v);
    assert DictRecords(a) + [] == DictRecords(a);
  }

  // ---------------------------------------------------------------------------
  // Names collected from a field list

  /** The names of a concatenation are the names of each part, in order. */
  lemma {:induction false} FieldNamesAppend(repr: Json -> string, a: seq<Json>, b: seq<Json>, key: string)
    ensures FieldNames(repr, a + b, key) == FieldNames(repr, a, key) + FieldNames(repr, b, key)
  {
    if b == [] {
      assert a + b == a;
      assert FieldNames(repr, a, key) + [] == FieldNames(repr, a, key);
    } else {
      assert (a + b)[..|a + b| - 1] == a + b[..|b| - 1];
      FieldNamesAppend(repr, a, b[..|b| - 1], key);
    }
  }

  /** A single entry contributes `str()` of its name exactly when it is a dict
      whose value at `key` is truthy; with `FieldNamesAppend` this fixes
      `FieldNames` on every list. */
  lemma FieldNamesOne(repr: Json -> string, f: Json, key: string)
    ensures FieldNames(repr, [f], key)
      == if f.JObj? && key in f.fields && Truthy(f.fields[key]) then [Str(repr, f.fields[key])] else []
  {
    assert [f][..0] == [];
  }

  // ---------------------------------------------------------------------------
  // The sub-bullets of a record

  const DetailOrder: seq<Detail> := [Code, Description, Hashtag, Course, FieldsVn, FieldsEn]

  /** The source's test for emitting a detail: a non-empty text for ID,
      Mô tả and id_course, a truthy raw value for `Hashtag`, and a non-empty
      list of names for the two Lĩnh vực lines. */
  predicate Shown(repr: Json -> string, item: Obj, d: Detail)
  {
    match d
    case Code => TextOf(repr, item, CodeKey) != ""
    case Description => TextOf(repr, item, DescriptionKey) != ""
    case Hashtag => Truthy(HashtagValue(item))
    case Course => TextOf(repr, item, CourseKey) != ""
    case FieldsVn => ItemNames(repr, item, NameVnKey) != []
    case FieldsEn => ItemNames(repr, item, NameEnKey) != []
  }

  /** The value a detail shows, as the record loop computes it. */
  function DetailValue(repr: Json -> string, item: Obj, d: Detail): (r: string)
  {
    match d
    case Code => TextOf(repr, item, CodeKey)
    case Description => TextOf(repr, item, DescriptionKey)
    case Hashtag => HashtagText(repr, item)
    case Course => TextOf(repr, item, CourseKey)
    case FieldsVn => JoinNonEmpty(ItemNames(repr, item, NameVnKey))
    case FieldsEn => JoinNonEmpty(ItemNames(repr, item, NameEnKey))
  }

  /** The line of a detail: its label, then its escaped value. */
  function DetailLine(repr: Json -> string, item: Obj, d: Detail): (r: string)
    ensures Prefix(d) <= r
    ensures Starts(r, ' ', ' ')
  {
    DetailText(d, DetailValue(repr, item, d))
  }

  /** The line of `d` when it is shown, else nothing. */
  function Piece(repr: Json -> string, item: Obj, d: Detail): (r: seq<string>)
  {
    Opt(Shown(repr, item, d), DetailLine(repr, item, d))
  }

  /** The lines of the details of `ds` that are shown, in the order of `ds`. */
  function DetailLines(repr: Json -> string, item: Obj, ds: seq<Detail>): (r: seq<string>)
  {
    if ds == [] then [] else Piece(repr, item, ds[0]) + DetailLines(repr, item, ds[1..])
  }

  /** Appending the shown lines of `ds` to `acc` one detail at a time. */
  function AppendDetails(repr: Json -> string, item: Obj, acc: seq<string>, ds: seq<Detail>): (r: seq<string>)
    decreases |ds|
  {
    if ds == [] then acc else AppendDetails(repr, item, acc + Piece(repr, item, ds[0]), ds[1..])
  }

  lemma {:induction false} AppendDetailsLines(repr: Json -> string, item: Obj, acc: seq<string>, ds: seq<Detail>)
    ensures AppendDetails(repr, item, acc, ds) == acc + DetailLines(repr, item, ds)
    decreases |ds|
  {
    if ds == [] {
      assert acc + [] == acc;
    } else {
      AppendDetailsLines(repr, item, acc + Piece(repr, item, ds[0]), ds[1..]);
      AppendAssoc(acc, Piece(repr, item, ds[0]), DetailLines(repr, item, ds[1..]));
    }
  }

  lemma UnrollDetails(repr: Json -> string, item: Obj, acc: seq<string>)
    ensures AppendDetails(repr, item, acc, DetailOrder)
      == acc + Piece(repr, item, Code) + Piece(repr, item, Description) + Piece(repr, item, Hashtag)
         + Piece(repr, item, Course) + Piece(repr, item, FieldsVn) + Piece(repr, item, FieldsEn)
  {
    var ds := DetailOrder;
    assert ds[1..][1..] == ds[2..];
    assert ds[2..][1..] == ds[3..];
    assert ds[3..][1..] == ds[4..];
    assert ds[4..][1..] == ds[5..];
    assert ds[5..][1..] == [];
  }

  /** Each detail's piece is the corresponding `if ...: lines.append(...)` of the source. */
  lemma PiecesFirst(repr: Json -> string, item: Obj)
    ensures Piece(repr, item, Code)
      == Opt(TextOf(repr, item, CodeKey) != "", DetailText(Code, TextOf(repr, item, CodeKey)))
    ensures Piece(repr, item, Description)
      == Opt(TextOf(repr, item, DescriptionKey) != "", DetailText(Description, TextOf(repr, item, DescriptionKey)))
    ensures Piece(repr, item, Hashtag)
      == Opt(Truthy(HashtagValue(item)), DetailText(Hashtag, HashtagText(repr, item)))
  {
  }

  lemma PiecesLast(repr: Json -> string, item: Obj)
    ensures Piece(repr, item, Course)
      == Opt(TextOf(repr, item, CourseKey) != "", DetailText(Course, TextOf(repr, item, CourseKey)))
    ensures Piece(repr, item, FieldsVn)
      == Opt(ItemNames(repr, item, NameVnKey) != [], DetailText(FieldsVn, JoinNonEmpty(ItemNames(repr, item, NameVnKey))))
    ensures Piece(repr, item, FieldsEn)
      == Opt(ItemNames(repr, item, NameEnKey) != [], DetailText(FieldsEn, JoinNonEmpty(ItemNames(repr, item, NameEnKey))))
  {
  }

  /** A record's lines are its title bullet, then the line of each detail
      that is shown, in the fixed order ID, Mô tả, Hashtag, id_course,
      Lĩnh vực, Lĩnh vực (EN). */
  lemma RecordLinesByDetail(repr: Json -> string, item: Obj)
    ensures RecordLines(repr, item) == [TitleLine(repr, item)] + DetailLines(repr, item, DetailOrder)
  {
    PiecesFirst(repr, item);
    PiecesLast(repr, item);
    UnrollDetails(repr, item, [TitleLine(repr, item)]);
    AppendDetailsLines(repr, item, [TitleLine(repr, item)], DetailOrder);
  }

  /** Reads back which detail a line belongs to from the fifth character
      of its label, and the thirteenth for the two "Lĩnh vực" labels. */
  function KeyOf(line: string): (r: Detail)
  {
    if |line| <= 4 then Code
    else if line[4] == 'M' then Description
    else if line[4] == 'H' then Hashtag
    else if line[4] == 'i' then Course
    else if line[4] == 'L' then (if |line| > 12 && line[12] == ' ' then FieldsEn else FieldsVn)
    else Code
  }

  lemma KeyOfLine(repr: Json -> string, item: Obj, d: Detail)
    ensures KeyOf(DetailLine(repr, item, d)) == d
  {
    var line := DetailLine(repr, item, d);
    assert line[4] == Prefix(d)[4];
    if d.FieldsVn? || d.FieldsEn? {
      assert line[12] == Prefix(d)[12];
    }
  }

  /** Lines of different details never coincide. */
  lemma DetailLineInjective(repr: Json -> string, item: Obj, d: Detail, e: Detail)
    requires DetailLine(repr, item, d) == DetailLine(repr, item, e)
    ensures d == e
  {
    KeyOfLine(repr, item, d);
    KeyOfLine(repr, item, e);
  }

  lemma {:induction false} DetailLinesFrom(repr: Json -> string, item: Obj, ds: seq<Detail>, line: string)
    requires line in DetailLines(repr, item, ds)
    ensures exists e :: e in ds && Shown(repr, item, e) && line == DetailLine(repr, item, e)
  {
    if line !in Piece(repr, item, ds[0]) {
      DetailLinesFrom(repr, item, ds[1..], line);
      var e :| e in ds[1..] && Shown(repr, item, e) && line == DetailLine(repr, item, e);
      assert e in ds;
    }
  }

  lemma {:induction false} DetailLinesHas(repr: Json -> string, item: Obj, ds: seq<Detail>, d: Detail)
    requires d in ds && Shown(repr, item, d)
    ensures DetailLine(repr, item, d) in DetailLines(repr, item, ds)
  {
    if ds[0] != d {
      DetailLinesHas(repr, item, ds[1..], d);
    }
  }

  /** A detail's line is among the record's lines exactly when the source's
      test for it holds. */
  lemma DetailShownIff(repr: Json -> string, item: Obj, d: Detail)
    ensures DetailLine(repr, item, d) in RecordLines(repr, item) <==> Shown(repr, item, d)
  {
    RecordLinesByDetail(repr, item);
    var line := DetailLine(repr, item, d);
    if line in RecordLines(repr, item) {
      assert line[0] == ' ' != TitleLine(repr, item)[0];
      DetailLinesFrom(repr, item, DetailOrder, line);
      var e :| e in DetailOrder && Shown(repr, item, e) && line == DetailLine(repr, item, e);
      DetailLineInjective(repr, item, d, e);
    }
    if Shown(repr, item, d) {
      DetailLinesHas(repr, item, DetailOrder, d);
    }
  }

  /** A hashtag list holding one empty string is truthy, so it yields a
      Hashtag bullet with nothing after the label. */
  lemma HashtagOfEmptyString(repr: Json -> string, item: Obj)
    requires HashtagKey in item && item[HashtagKey] == JList([JStr("")])
    ensures "  - Hashtag: " in RecordLines(repr, item)
  {
    EmptyTags(repr, item);
    BareHashtagLine(DetailValue(repr, item, Hashtag));
    DetailShownIff(repr, item, Hashtag);
  }

  /** The list `[""]` is truthy but joins to nothing. */
  lemma EmptyTags(repr: Json -> string, item: Obj)
    requires HashtagKey in item && item[HashtagKey] == JList([JStr("")])
    ensures Shown(repr, item, Hashtag) && DetailValue(repr, item, Hashtag) == ""
  {
    var xs := StrAll(repr, [JStr("")]);
    assert xs == [""];
    assert NonEmpty(xs) == [] by {
      assert NonEmpty(xs[1..]) == [];
    }
  }

  lemma BareHashtagLine(v: string)
    requires v == ""
    ensures DetailText(Hashtag, v) == "  - Hashtag: "
  {
    assert EscapeMd(v) == "";
  }

  lemma {:induction false} DetailLinesNone(repr: Json -> string, item: Obj, ds: seq<Detail>)
    requires forall d :: d in ds ==> !Shown(repr, item, d)
    ensures DetailLines(repr, item, ds) == []
  {
    if ds != [] {
      DetailLinesNone(repr, item, ds[1..]);
    }
  }

  /** A record with none of the optional keys gives its title bullet alone. */
  lemma TitleOnly(repr: Json -> string, item: Obj)
    requires CodeKey !in item && DescriptionKey !in item && HashtagKey !in item && CourseKey !in item
    requires FieldsOptionalKey !in item && FieldsKey !in item
    ensures RecordLines(repr, item) == [TitleLine(repr, item)]
  {
    RecordLinesByDetail(repr, item);
    assert FieldList(item) == JList([]);
    assert !Shown(repr, item, Code) && !Shown(repr, item, Description) && !Shown(repr, item, Hashtag);
    assert !Shown(repr, item, Course) && !Shown(repr, item, FieldsVn) && !Shown(repr, item, FieldsEn);
    DetailLinesNone(repr, item, DetailOrder);
    assert [TitleLine(repr, item)] + [] == [TitleLine(repr, item)];
  }

  // ---------------------------------------------------------------------------
  // Headings and title bullets of the whole document

  /** The line begins with the two characters `a` and `b`. */
  predicate Starts(line: string, a: char, b: char)
  {
    |line| >= 2 && line[0] == a && line[1] == b
  }

  /** The lines of `lines` that begin with `a` and `b`, in order: with `'#'`,
      `'#'` the headings, with `'-'`, `' '` the title bullets. */
  function Select(lines: seq<string>, a: char, b: char): (r: seq<string>)
  {
    if lines == [] then []
    else (if Starts(lines[0], a, b) then [lines[0]] else []) + Select(lines[1..], a, b)
  }

  lemma {:induction false} SelectAppend(x: seq<string>, y: seq<string>, a: char, b: char)
    ensures Select(x + y, a, b) == Select(x, a, b) + Select(y, a, b)
  {
    if x == [] {
      assert x + y == y;
    } else {
      assert (x + y)[1..] == x[1..] + y;
      SelectAppend(x[1..], y, a, b);
      var h := if Starts(x[0], a, b) then [x[0]] else [];
      AppendAssoc(h, Select(x[1..], a, b), Select(y, a, b));
    }
  }

  lemma SelectOne(line: string, a: char, b: char)
    ensures Select([line], a, b) == if Starts(line, a, b) then [line] else []
  {
    assert [line][1..] == [];
    var h := if Starts(line, a, b) then [line] else [];
    assert h + [] == h;
  }

  lemma {:induction false} DetailLinesSelect(repr: Json -> string, item: Obj, ds: seq<Detail>, a: char, b: char)
    requires a != ' '
    ensures Select(DetailLines(repr, item, ds), a, b) == []
  {
    if ds != [] {
      DetailLinesSelect(repr, item, ds[1..], a, b);
      var p := Piece(repr, item, ds[0]);
      SelectAppend(p, DetailLines(repr, item, ds[1..]), a, b);
      if Shown(repr, item, ds[0]) {
        SelectOne(DetailLine(repr, item, ds[0]), a, b);
      }
    }
  }

  /** A record's lines are its title bullet followed by lines that are
      neither headings nor title bullets. */
  lemma RecordSplit(repr: Json -> string, item: Obj) returns (rest: seq<string>)
    ensures RecordLines(repr, item) == [TitleLine(repr, item)] + rest
    ensures Select(rest, '#', '#') == [] && Select(rest, '-', ' ') == []
    ensures Starts(TitleLine(repr, item), '-', ' ')
  {
    BulletStarts(EscapeMd(Title(repr, item)));
    rest := DetailLines(repr, item, DetailOrder);
    RecordLinesByDetail(repr, item);
    DetailLinesSelect(repr, item, DetailOrder, '#', '#');
    DetailLinesSelect(repr, item, DetailOrder, '-', ' ');
  }

  lemma BulletStarts(m: string)
    ensures Starts("- " + m, '-', ' ')
  {
  }

  /** A record contributes no heading and exactly its title bullet. */
  lemma RecordSelect(repr: Json -> string, item: Obj)
    ensures Select(RecordLines(repr, item), '#', '#') == []
    ensures Select(RecordLines(repr, item), '-', ' ') == [TitleLine(repr, item)]
  {
    var rest := RecordSplit(repr, item);
    TitleThenDetails(RecordLines(repr, item), TitleLine(repr, item), rest);
  }

  lemma TitleThenDetails(lines: seq<string>, t: string, rest: seq<string>)
    requires lines == [t] + rest
    requires Starts(t, '-', ' ')
    requires Select(rest, '#', '#') == [] && Select(rest, '-', ' ') == []
    ensures Select(lines, '#', '#') == []
    ensures Select(lines, '-', ' ') == [t]
  {
    assert lines[1..] == rest;
    assert [t] + [] == [t];
  }

  /** The title bullets of `items`, in order. */
  function TitleLines(repr: Json -> string, items: seq<Obj>): (r: seq<string>)
    ensures |r| == |items|
  {
    if items == [] then [] else TitleLines(repr, items[..|items| - 1]) + [TitleLine(repr, items[|items| - 1])]
  }

  lemma {:induction false} RecordsSelect(repr: Json -> string, items: seq<Obj>)
    ensures Select(RecordsLines(repr, items), '#', '#') == []
    ensures Select(RecordsLines(repr, items), '-', ' ') == TitleLines(repr, items)
  {
    if items != [] {
      var init, last := items[..|items| - 1], items[|items| - 1];
      RecordsSelect(repr, init);
      RecordSelect(repr, last);
      SelectAppend(RecordsLines(repr, init), RecordLines(repr, last), '#', '#');
      SelectAppend(RecordsLines(repr, init), RecordLines(repr, last), '-', ' ');
    }
  }

  /** A line followed by a blank line, some lines and a blank line: the
      blank lines are never selected. */
  lemma FramedSelect(hd: string, body: seq<string>, a: char, b: char)
    ensures Select([hd, ""] + body + [""], a, b) == Select([hd], a, b) + Select(body, a, b)
  {
    var h := [hd, ""];
    SelectAppend(h, body, a, b);
    SelectAppend(h + body, [""], a, b);
    SelectAppend([hd], [""], a, b);
    assert [hd] + [""] == h;
    SelectOne("", a, b);
    var sh := Select([hd], a, b);
    assert sh + [] == sh;
    var sb := Select(body, a, b);
    assert sh + sb + [] == sh + sb;
  }

  lemma HeadingStarts(s: string)
    ensures Starts(HeadingLine(s), '#', '#') && !Starts(HeadingLine(s), '-', ' ')
  {
  }

  /** A section holds one heading, and the title bullets of its records in order. */
  lemma SectionSelect(repr: Json -> string, s: string, items: seq<Obj>)
    ensures Select(Section(repr, s, items), '#', '#') == [HeadingLine(s)]
    ensures Select(Section(repr, s, items), '-', ' ') == TitleLines(repr, items)
  {
    var body := RecordsLines(repr, items);
    RecordsSelect(repr, items);
    HeadingStarts(s);
    FramedSelect(HeadingLine(s), body, '#', '#');
    FramedSelect(HeadingLine(s), body, '-', ' ');
    SelectOne(HeadingLine(s), '#', '#');
    SelectOne(HeadingLine(s), '-', ' ');
    assert [HeadingLine(s)] + [] == [HeadingLine(s)];
    assert [] + TitleLines(repr, items) == TitleLines(repr, items);
  }

  /** The headings of `subjects`, in order. */
  function HeadingLines(subjects: seq<string>): (r: seq<string>)
    ensures |r| == |subjects|
  {
    if subjects == [] then [] else HeadingLines(subjects[..|subjects| - 1]) + [HeadingLine(subjects[|subjects| - 1])]
  }

  /** The title bullets of the sections of `subjects`, section after section. */
  function SectionTitles(repr: Json -> string, recs: seq<Obj>, subjects: seq<string>): (r: seq<string>)
  {
    if subjects == [] then []
    else
      var s := subjects[|subjects| - 1];
      SectionTitles(repr, recs, subjects[..|subjects| - 1]) + TitleLines(repr, WithSubject(repr, recs, s))
  }

  lemma {:induction false} SectionsSelect(repr: Json -> string, recs: seq<Obj>, subjects: seq<string>)
    ensures Select(Sections(repr, recs, subjects), '#', '#') == HeadingLines(subjects)
    ensures Select(Sections(repr, recs, subjects), '-', ' ') == SectionTitles(repr, recs, subjects)
  {
    if subjects != [] {
      var init, s := subjects[..|subjects| - 1], subjects[|subjects| - 1];
      var sec := Section(repr, s, WithSubject(repr, recs, s));
      SectionsSelect(repr, recs, init);
      SectionSelect(repr, s, WithSubject(repr, recs, s));
      SelectAppend(Sections(repr, recs, init), sec, '#', '#');
      SelectAppend(Sections(repr, recs, init), sec, '-', ' ');
    }
  }

  /** The document's headings are those of the subjects in heading order:
      one per distinct subject, sorted as `SubjectOrderSpec` states, and no
      two of them equal. */
  lemma DocumentHeadings(repr: Json -> string, lower: string -> string, obj: Obj, data: seq<Json>)
    ensures Select(Document(repr, lower, obj, data), '#', '#')
      == HeadingLines(SubjectOrder(repr, lower, DictRecords(data)))
    ensures NoDup(Select(Document(repr, lower, obj, data), '#', '#'))
  {
    var recs := DictRecords(data);
    var order := SubjectOrder(repr, lower, recs);
    var header := Header(repr, obj);
    HeaderSelect(repr, obj);
    SectionsSelect(repr, recs, order);
    SelectAppend(header, Sections(repr, recs, order), '#', '#');
    assert [] + HeadingLines(order) == HeadingLines(order);
    SubjectOrderSpec(repr, lower, recs);
    HeadingLinesNoDup(order);
  }

  lemma HeaderSelect(repr: Json -> string, obj: Obj)
    ensures Select(Header(repr, obj), '#', '#') == []
    ensures Select(Header(repr, obj), '-', ' ') == []
  {
    TitleLinesSelect(EscapeMd(Message(repr, obj)));
  }

  /** The title line and the blank line after it are neither headings nor bullets. */
  lemma TitleLinesSelect(m: string)
    ensures Select(["# " + m, ""], '#', '#') == []
    ensures Select(["# " + m, ""], '-', ' ') == []
  {
    var h := ["# " + m, ""];
    assert h[1..] == [""];
    assert h[0][1] == ' ';
    SelectOne("", '#', '#');
    SelectOne("", '-', ' ');
  }

  /** Distinct subjects have distinct headings, escaping being injective. */
  lemma HeadingLineInjective(a: string, b: string)
    requires HeadingLine(a) == HeadingLine(b)
    ensures a == b
  {
    var n := |HeadingPrefix|;
    assert EscapeMd(a) == HeadingLine(a)[n..];
    assert EscapeMd(b) == HeadingLine(b)[n..];
    EscapeInjective(a, b);
  }

  lemma {:induction false} HeadingLinesNoDup(subjects: seq<string>)
    requires NoDup(subjects)
    ensures NoDup(HeadingLines(subjects))
  {
    if subjects != [] {
      var init := subjects[..|subjects| - 1];
      assert NoDup(init) by {
        assert forall i :: 0 <= i < |init| ==> init[i] == subjects[i];
      }
      HeadingLinesNoDup(init);
      HeadingLinesAt(subjects);
      forall i, j | 0 <= i < j < |subjects|
        ensures HeadingLines(subjects)[i] != HeadingLines(subjects)[j]
      {
        if HeadingLines(subjects)[i] == HeadingLines(subjects)[j] {
          HeadingLineInjective(subjects[i], subjects[j]);
        }
      }
    }
  }

  lemma {:induction false} HeadingLinesAt(subjects: seq<string>)
    ensures forall i :: 0 <= i < |subjects| ==> HeadingLines(subjects)[i] == HeadingLine(subjects[i])
  {
    if subjects != [] {
      var init := subjects[..|subjects| - 1];
      HeadingLinesAt(init);
      assert forall i :: 0 <= i < |init| ==> init[i] == subjects[i];
    }
  }

  /** The multisets `f(s)` of the subjects `s` in `subjects`, added up. */
  function SumBag(f: string -> multiset<string>, subjects: seq<string>): (r: multiset<string>)
  {
    if subjects == [] then multiset{} else f(subjects[0]) + SumBag(f, subjects[1..])
  }

  /** The title bullets of one subject's section, as a multiset. */
  function GroupTitles(repr: Json -> string, recs: seq<Obj>): (r: string -> multiset<string>)
  {
    s => multiset(TitleLines(repr, WithSubject(repr, recs, s)))
  }

  lemma {:induction false} SumSnoc(f: string -> multiset<string>, xs: seq<string>, s: string)
    ensures SumBag(f, xs + [s]) == SumBag(f, xs) + f(s)
  {
    if xs == [] {
      assert [] + [s] == [s];
      assert [s][1..] == [];
    } else {
      assert (xs + [s])[1..] == xs[1..] + [s];
      SumSnoc(f, xs[1..], s);
    }
  }

  lemma SumLast(f: string -> multiset<string>, xs: seq<string>)
    requires xs != []
    ensures SumBag(f, xs) == SumBag(f, xs[..|xs| - 1]) + f(xs[|xs| - 1])
  {
    SumSnoc(f, xs[..|xs| - 1], xs[|xs| - 1]);
    assert xs[..|xs| - 1] + [xs[|xs| - 1]] == xs;
  }

  lemma {:induction false} SectionTitlesBag(repr: Json -> string, recs: seq<Obj>, subjects: seq<string>)
    ensures multiset(SectionTitles(repr, recs, subjects)) == SumBag(GroupTitles(repr, recs), subjects)
  {
    if subjects != [] {
      var f := GroupTitles(repr, recs);
      var init, s := subjects[..|subjects| - 1], subjects[|subjects| - 1];
      var last := TitleLines(repr, WithSubject(repr, recs, s));
      calc {
        multiset(SectionTitles(repr, recs, subjects));
        multiset(SectionTitles(repr, recs, init) + last);
        multiset(SectionTitles(repr, recs, init)) + multiset(last);
        { SectionTitlesBag(repr, recs, init); }
        SumBag(f, init) + f(s);
        { SumLast(f, subjects); }
        SumBag(f, subjects);
      }
    }
  }

  lemma {:induction false} SumInsert(f: string -> multiset<string>, x: string, s: seq<string>, key: string -> string)
    ensures SumBag(f, Insert(x, s, key)) == f(x) + SumBag(f, s)
  {
    if s == [] {
      assert [x][1..] == [];
    } else if LexLe(key(x), key(s[0])) {
      assert ([x] + s)[1..] == s;
    } else {
      SumInsert(f, x, s[1..], key);
      assert ([s[0]] + Insert(x, s[1..], key))[1..] == Insert(x, s[1..], key);
    }
  }

  /** Sorting the subjects reorders whole sections and so keeps the bullets. */
  lemma {:induction false} SumSort(f: string -> multiset<string>, xs: seq<string>, key: string -> string)
    ensures SumBag(f, SortByKey(xs, key)) == SumBag(f, xs)
  {
    if xs != [] {
      SumSort(f, xs[1..], key);
      SumInsert(f, xs[0], SortByKey(xs[1..], key), key);
    }
  }

  /** When `g` adds `m` to `f` at the one subject `x`, the sum over subjects
      without repeats grows by `m` exactly when `x` is among them. */
  lemma {:induction false} SumAdd(f: string -> multiset<string>, g: string -> multiset<string>, x: string,
                                  m: multiset<string>, subjects: seq<string>)
    requires NoDup(subjects)
    requires forall s :: g(s) == f(s) + if s == x then m else multiset{}
    ensures SumBag(g, subjects) == SumBag(f, subjects) + if x in subjects then m else multiset{}
  {
    if subjects != [] {
      var rest := subjects[1..];
      assert NoDup(rest) && subjects[0] !in rest by {
        assert forall i :: 0 <= i < |rest| ==> rest[i] == subjects[i + 1];
      }
      SumAdd(f, g, x, m, rest);
      assert x in subjects <==> x == subjects[0] || x in rest;
    }
  }

  lemma TitleLinesSnoc(repr: Json -> string, items: seq<Obj>, r: Obj)
    ensures TitleLines(repr, items + [r]) == TitleLines(repr, items) + [TitleLine(repr, r)]
  {
    assert (items + [r])[..|items|] == items;
  }

  /** One more record adds its bullet to the section of its own subject only. */
  lemma GroupTitlesSnoc(repr: Json -> string, recs: seq<Obj>, r: Obj)
    ensures forall s :: (GroupTitles(repr, recs + [r])(s)
      == GroupTitles(repr, recs)(s) + if s == Subject(repr, r) then multiset{TitleLine(repr, r)} else multiset{})
  {
    forall s
      ensures GroupTitles(repr, recs + [r])(s)
        == GroupTitles(repr, recs)(s) + if s == Subject(repr, r) then multiset{TitleLine(repr, r)} else multiset{}
    {
      WithSubjectSnoc(repr, recs, r, s);
      var w := WithSubject(repr, recs, s);
      if s == Subject(repr, r) {
        TitleLinesSnoc(repr, w, r);
      } else {
        assert w + [] == w;
      }
    }
  }

  lemma GroupTitlesAbsent(repr: Json -> string, recs: seq<Obj>, x: string)
    requires x !in Distinct(Subjects(repr, recs))
    ensures GroupTitles(repr, recs)(x) == multiset{}
  {
    WithSubjectAbsent(repr, recs, x);
  }

  /** The sum over the subjects seen so far grows by the new record's bullet. */
  lemma SumAddRecord(repr: Json -> string, init: seq<Obj>, r: Obj)
    ensures var d := Distinct(Subjects(repr, init));
      SumBag(GroupTitles(repr, init + [r]), d) == SumBag(GroupTitles(repr, init), d)
        + if Subject(repr, r) in d then multiset{TitleLine(repr, r)} else multiset{}
  {
    DistinctNoDup(Subjects(repr, init));
    GroupTitlesSnoc(repr, init, r);
    SumAdd(GroupTitles(repr, init), GroupTitles(repr, init + [r]), Subject(repr, r),
      multiset{TitleLine(repr, r)}, Distinct(Subjects(repr, init)));
  }

  lemma TitleBagSnoc(repr: Json -> string, init: seq<Obj>, r: Obj)
    ensures multiset(TitleLines(repr, init + [r])) == multiset(TitleLines(repr, init)) + multiset{TitleLine(repr, r)}
  {
    TitleLinesSnoc(repr, init, r);
  }

  /** A record of a subject not seen before opens a section holding only its bullet. */
  lemma NewSubjectTitles(repr: Json -> string, init: seq<Obj>, r: Obj)
    requires Subject(repr, r) !in Distinct(Subjects(repr, init))
    ensures GroupTitles(repr, init + [r])(Subject(repr, r)) == multiset{TitleLine(repr, r)}
  {
    GroupTitlesAbsent(repr, init, Subject(repr, r));
    GroupTitlesSnoc(repr, init, r);
  }

  lemma BagDistinctStep(repr: Json -> string, init: seq<Obj>, r: Obj)
    requires SumBag(GroupTitles(repr, init), Distinct(Subjects(repr, init))) == multiset(TitleLines(repr, init))
    ensures SumBag(GroupTitles(repr, init + [r]), Distinct(Subjects(repr, init + [r])))
      == multiset(TitleLines(repr, init + [r]))
  {
    var d := Distinct(Subjects(repr, init));
    DistinctSnoc(repr, init, r);
    SumAddRecord(repr, init, r);
    TitleBagSnoc(repr, init, r);
    if Subject(repr, r) !in d {
      SumNewSubject(repr, init, r);
    }
  }

  /** A record with a new subject adds that subject's one-bullet section at the end. */
  lemma SumNewSubject(repr: Json -> string, init: seq<Obj>, r: Obj)
    requires Subject(repr, r) !in Distinct(Subjects(repr, init))
    ensures var d, g := Distinct(Subjects(repr, init)), GroupTitles(repr, init + [r]);
      SumBag(g, d + [Subject(repr, r)]) == SumBag(g, d) + multiset{TitleLine(repr, r)}
  {
    SumSnoc(GroupTitles(repr, init + [r]), Distinct(Subjects(repr, init)), Subject(repr, r));
    NewSubjectTitles(repr, init, r);
  }

  lemma {:induction false} BagDistinct(repr: Json -> string, recs: seq<Obj>)
    ensures SumBag(GroupTitles(repr, recs), Distinct(Subjects(repr, recs))) == multiset(TitleLines(repr, recs))
  {
    if recs != [] {
      var init, r := recs[..|recs| - 1], recs[|recs| - 1];
      SnocSplit(recs);
      BagDistinct(repr, init);
      BagDistinctStep(repr, init, r);
    }
  }

  /** Every dict record of `data` has exactly one title bullet in the
      document, and there are no others. */
  lemma DocumentTitles(repr: Json -> string, lower: string -> string, obj: Obj, data: seq<Json>)
    ensures multiset(Select(Document(repr, lower, obj, data), '-', ' ')) == multiset(TitleLines(repr, DictRecords(data)))
  {
    var recs := DictRecords(data);
    var order := SubjectOrder(repr, lower, recs);
    HeaderSelect(repr, obj);
    SectionsSelect(repr, recs, order);
    SelectAppend(Header(repr, obj), Sections(repr, recs, order), '-', ' ');
    assert [] + SectionTitles(repr, recs, order) == SectionTitles(repr, recs, order);
    SectionTitlesBag(repr, recs, order);
    SumSort(GroupTitles(repr, recs), Distinct(Subjects(repr, recs)), lower);
    BagDistinct(repr, recs);
  }

  // ---------------------------------------------------------------------------
  // The returned text

  /** Python's `sep.join(xs)` begins with the first element. */
  lemma JoinWithHead(sep: string, xs: seq<string>)
    requires xs != []
    ensures xs[0] <= JoinWith(sep, xs)
  {
  }

  lemma JoinWithTwo(sep: string, a: string, b: string, rest: seq<string>)
    requires rest != []
    ensures JoinWith(sep, [a, b] + rest) == a + sep + (b + sep + JoinWith(sep, rest))
  {
    assert ([a, b] + rest)[1..] == [b] + rest;
    assert ([b] + rest)[1..] == rest;
  }

  /** The sections begin with the heading of the first subject. */
  lemma {:induction false} SectionsHead(repr: Json -> string, recs: seq<Obj>, subjects: seq<string>)
    requires subjects != []
    ensures Sections(repr, recs, subjects) != []
    ensures Sections(repr, recs, subjects)[0] == HeadingLine(subjects[0])
  {
    var init := subjects[..|subjects| - 1];
    if init != [] {
      SectionsHead(repr, recs, init);
    }
  }

  /** `DictRecords(data)` is empty exactly when no element of `data` is a dict. */
  lemma {:induction false} DictRecordsEmpty(data: seq<Json>)
    ensures DictRecords(data) == [] <==> forall i :: 0 <= i < |data| ==> !data[i].JObj?
  {
    if data != [] {
      var init := data[..|data| - 1];
      DictRecordsEmpty(init);
      assert forall i :: 0 <= i < |init| ==> init[i] == data[i];
    }
  }

  /** The first heading's label, up to its colon. */
  const HeadingLabel: string := "## Môn học:"

  lemma HeadingLabelPrefix(title: string, name: string, rest: string)
    requires HeadingPrefix + name <= rest
    ensures title + "\n\n" + HeadingLabel <= title + "\n" + ("" + "\n" + rest)
  {
    assert HeadingPrefix == HeadingLabel + " ";
    var p, q := title + "\n\n" + HeadingLabel, title + "\n" + ("" + "\n" + rest);
    assert q == title + "\n\n" + rest;
    assert forall i :: 0 <= i < |HeadingLabel| ==> HeadingLabel[i] == rest[i];
    assert |p| <= |q|;
    assert forall i :: 0 <= i < |p| ==> p[i] == q[i];
  }

  /** With at least one dict record, the joined lines begin with the title
      line, a blank line and the first heading's label. */
  lemma JoinedHead(repr: Json -> string, lower: string -> string, obj: Obj, data: seq<Json>)
    requires DictRecords(data) != []
    ensures "# " + EscapeMd(Message(repr, obj)) + "\n\n" + HeadingLabel <= JoinWith("\n", Document(repr, lower, obj, data))
  {
    var recs := DictRecords(data);
    var order := SubjectOrder(repr, lower, recs);
    var title := "# " + EscapeMd(Message(repr, obj));
    SubjectOrderMembers(repr, lower, recs);
    assert Subject(repr, recs[0]) in order;
    var s := Sections(repr, recs, order);
    SectionsHead(repr, recs, order);
    JoinWithTwo("\n", title, "", s);
    JoinWithHead("\n", s);
    HeadingLabelPrefix(title, EscapeMd(order[0]), JoinWith("\n", s));
  }

  /** With at least one dict record, the text begins with the title line, a
      blank line and the first subject heading. */
  lemma OutputHead(repr: Json -> string, lower: string -> string, obj: Obj)
    requires HasDataList(obj)
    requires exists i :: 0 <= i < |obj["data"].items| && obj["data"].items[i].JObj?
    ensures JsonToMarkdown(repr, lower, obj).Success?
    ensures "# " + EscapeMd(Message(repr, obj)) + "\n\n" + HeadingLabel <= JsonToMarkdown(repr, lower, obj).value
  {
    var data := obj["data"].items;
    DictRecordsEmpty(data);
    JoinedHead(repr, lower, obj, data);
    LabelEnd("# " + EscapeMd(Message(repr, obj)) + "\n\n");
    RenderKeeps("# " + EscapeMd(Message(repr, obj)) + "\n\n" + HeadingLabel, Document(repr, lower, obj, data));
  }

  lemma LabelEnd(t: string)
    ensures var p := t + HeadingLabel; p != [] && !IsSpace(p[|p| - 1])
  {
  }

  /** A prefix of the joined lines that ends in a non-space character is a
      prefix of the text. */
  lemma RenderKeeps(p: string, lines: seq<string>)
    requires p <= JoinWith("\n", lines) && p != [] && !IsSpace(p[|p| - 1])
    ensures p <= Render(lines)
  {
    RStripKeepsPrefix(p, JoinWith("\n", lines));
  }

  /** With no dict record, the text is the title line with trailing
      whitespace removed, and one newline. */
  lemma OutputNoRecords(repr: Json -> string, lower: string -> string, obj: Obj)
    requires HasDataList(obj)
    requires forall i :: 0 <= i < |obj["data"].items| ==> !obj["data"].items[i].JObj?
    ensures JsonToMarkdown(repr, lower, obj) == Success(RStrip("# " + EscapeMd(Message(repr, obj))) + "\n")
  {
    var title := "# " + EscapeMd(Message(repr, obj));
    DictRecordsEmpty(obj["data"].items);
    assert Header(repr, obj) + [] == [title, ""];
    assert JoinWith("\n", [title, ""]) == title + "\n" by {
      assert [title, ""][1..] == [""];
    }
    RStripNewline(title);
  }

  /** With a `data` list, the text is never empty: it ends in one newline
      right after a character that is not whitespace (at the latest the
      `#` of the title line). */
  lemma OutputEnds(repr: Json -> string, lower: string -> string, obj: Obj)
    requires HasDataList(obj)
    ensures var r := JsonToMarkdown(repr, lower, obj).value;
      |r| >= 2 && r[|r| - 1] == '\n' && !IsSpace(r[|r| - 2])
  {
    var lines := Document(repr, lower, obj, obj["data"].items);
    assert lines[0] == "# " + EscapeMd(Message(repr, obj));
    JoinWithHead("\n", lines);
    RStripKeepsPrefix("#", JoinWith("\n", lines));
  }

  lemma RStripNewline(s: string)
    ensures RStrip(s + "\n") == RStrip(s)
  {
    assert (s + "\n")[..|s|] == s;
  }
}
