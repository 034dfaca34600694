/** `sep.join(values)` and `_join`, which joins the non-empty values with ", ". */
module Joining {

  /** Python's `sep.join(xs)`. */
  function JoinWith(sep: string, xs: seq<string>): (r: string)
  {
    if xs == [] then ""
    else if |xs| == 1 then xs[0]
    else xs[0] + sep + JoinWith(sep, xs[1..])
  }

  /** The values that are truthy, that is non-empty, in their order. */
  function NonEmpty(values: seq<string>): (r: seq<string>)
    ensures |r| <= |values|
    ensures forall i :: 0 <= i < |r| ==> r[i] != ""
  {
    if values == [] then []
    else (if values[0] != "" then [values[0]] else []) + NonEmpty(values[1..])
  }

  /** `_join(values)`: `", ".join(v for v in values if v)`. */
  function JoinNonEmpty(values: seq<string>): (r: string)
  {
    JoinWith(", ", NonEmpty(values))
  }

  /** The sum of the lengths of `xs`. */
  function TotalLength(xs: seq<string>): (r: nat)
  {
    if xs == [] then 0 else |xs[0]| + TotalLength(xs[1..])
  }

  lemma {:induction false} TotalLengthAppend(a: seq<string>, b: seq<string>)
    ensures TotalLength(a + b) == TotalLength(a) + TotalLength(b)
  {
    if a == [] {
      assert a + b == b;
    } else {
      assert (a + b)[1..] == a[1..] + b;
      TotalLengthAppend(a[1..], b);
    }
  }

  lemma {:induction false} JoinWithLength(sep: string, xs: seq<string>)
    requires xs != []
    ensures |JoinWith(sep, xs)| == TotalLength(xs) + |sep| * (|xs| - 1)
  {
    if |xs| > 1 {
      JoinWithLength(sep, xs[1..]);
    }
  }

  lemma {:induction false} NonEmptyLength(values: seq<string>)
    ensures TotalLength(NonEmpty(values)) == TotalLength(values)
    ensures NonEmpty(values) == [] <==> forall i :: 0 <= i < |values| ==> values[i] == ""
  {
    if values != [] {
      NonEmptyLength(values[1..]);
      assert forall i :: 1 <= i < |values| ==> values[i] == values[1..][i - 1];
      var head := if values[0] != "" then [values[0]] else [];
      TotalLengthAppend(head, NonEmpty(values[1..]));
    }
  }

  /** The result has the length of all values together plus two characters
      per separator, and it is empty exactly when every value is empty. */
  lemma JoinNonEmptyLength(values: seq<string>)
    ensures NonEmpty(values) != [] ==>
      |JoinNonEmpty(values)| == TotalLength(values) + 2 * (|NonEmpty(values)| - 1)
    ensures JoinNonEmpty(values) == "" <==> forall i :: 0 <= i < |values| ==> values[i] == ""
  {
    NonEmptyLength(values);
    var ne := NonEmpty(values);
    if ne != [] {
      JoinWithLength(", ", ne);
      assert |ne[0]| > 0;
      assert TotalLength(ne) >= |ne[0]|;
    }
  }

  /** The filter keeps every non-empty value as often as it occurs, and drops every empty one. */
  lemma {:induction false} NonEmptyBag(values: seq<string>)
    ensures multiset(NonEmpty(values)) == multiset(values)["" := 0]
  {
    if values != [] {
      var v, t := values[0], values[1..];
      NonEmptyBag(t);
      assert values == [v] + t;
      assert multiset(values) == multiset{v} + multiset(t);
      if v == "" {
        assert multiset(values)["" := 0] == multiset(t)["" := 0];
      } else {
        assert multiset(values)["" := 0] == multiset{v} + multiset(t)["" := 0];
      }
    }
  }

  lemma {:induction false} NonEmptyAppend(a: seq<string>, b: seq<string>)
    ensures NonEmpty(a + b) == NonEmpty(a) + NonEmpty(b)
  {
    if a == [] {
      assert a + b == b;
    } else {
      assert (a + b)[1..] == a[1..] + b;
      NonEmptyAppend(a[1..], b);
    }
  }

  lemma {:induction false} JoinWithSnoc(sep: string, xs: seq<string>, x: string)
    requires xs != []
    ensures JoinWith(sep, xs + [x]) == JoinWith(sep, xs) + sep + x
  {
    if |xs| > 1 {
      assert (xs + [x])[1..] == xs[1..] + [x];
      JoinWithSnoc(sep, xs[1..], x);
    } else {
      assert (xs + [x])[1..] == [x];
    }
  }

  /** Joining one more value: an empty value changes nothing, a first non-empty
      value is the whole result, and any later one is appended after ", ". */
  lemma JoinNonEmptySnoc(values: seq<string>, v: string)
    ensures JoinNonEmpty(values + [v]) ==
      if v == "" then JoinNonEmpty(values)
      else if JoinNonEmpty(values) == "" then v
      else JoinNonEmpty(values) + ", " + v
  {
    NonEmptyAppend(values, [v]);
    assert NonEmpty([v]) == if v == "" then [] else [v];
    JoinNonEmptyLength(values);
    NonEmptyLength(values);
    var ne := NonEmpty(values);
    if v == "" {
      assert ne + [] == ne;
    } else if ne == [] {
      assert ne + [v] == [v];
    } else {
      JoinWithSnoc(", ", ne, v);
    }
  }

  /** Splits text at every ", ", as Python's `s.split(", ")`. */
  function SplitComma(s: string): (r: seq<string>)
    ensures |r| >= 1
  {
    if s == [] then [""]
    else if |s| >= 2 && s[0] == ',' && s[1] == ' ' then [""] + SplitComma(s[2..])
    else var rest := SplitComma(s[1..]); [[s[0]] + rest[0]] + rest[1..]
  }

  lemma {:induction false} SplitCommaPrefix(a: string, t: string)
    requires ',' !in a
    ensures SplitComma(a + t) == [a + SplitComma(t)[0]] + SplitComma(t)[1..]
  {
    if a == [] {
      assert a + t == t;
      assert a + SplitComma(t)[0] == SplitComma(t)[0];
      assert [SplitComma(t)[0]] + SplitComma(t)[1..] == SplitComma(t);
    } else {
      assert (a + t)[1..] == a[1..] + t;
      SplitCommaPrefix(a[1..], t);
      assert [a[0]] + (a[1..] + SplitComma(t)[0]) == a + SplitComma(t)[0];
    }
  }

  /** When no value holds a comma, splitting the result at ", " gives back
      exactly the non-empty values. */
  lemma {:induction false} SplitJoin(values: seq<string>)
    requires forall i :: 0 <= i < |values| ==> ',' !in values[i]
    requires NonEmpty(values) != []
    ensures SplitComma(JoinNonEmpty(values)) == NonEmpty(values)
  {
    NonEmptyComma(values);
    SplitJoinWith(NonEmpty(values));
  }

  lemma {:induction false} NonEmptyComma(values: seq<string>)
    requires forall i :: 0 <= i < |values| ==> ',' !in values[i]
    ensures forall i :: 0 <= i < |NonEmpty(values)| ==> ',' !in NonEmpty(values)[i]
  {
    if values != [] {
      NonEmptyComma(values[1..]);
    }
  }

  lemma {:induction false} SplitJoinWith(xs: seq<string>)
    requires xs != []
    requires forall i :: 0 <= i < |xs| ==> ',' !in xs[i]
    ensures SplitComma(JoinWith(", ", xs)) == xs
  {
    if |xs| == 1 {
      SplitCommaPrefix(xs[0], "");
      assert xs[0] + "" == xs[0];
    } else {
      var tail := JoinWith(", ", xs[1..]);
      SplitJoinWith(xs[1..]);
      assert (", " + tail)[2..] == tail;
      assert SplitComma(", " + tail) == [""] + xs[1..];
      assert xs[0] + ", " + tail == xs[0] + (", " + tail);
      SplitCommaPrefix(xs[0], ", " + tail);
      assert xs[0] + "" == xs[0];
    }
  }
}
