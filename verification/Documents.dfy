/**
  Parsed JSON documents and the dotted paths into them (bridge/collector.py). Number
  parsing and what counts as a digit are parameters.
*/
module Documents {
  import opened Common
  import opened Strings

  /** A parsed JSON document. JNull is also Python's None for "not there"; JHuge is an
      integer of 2^1024 or more, which float() refuses. */
  datatype Json =
    | JNull | JBool(b: bool) | JNumber(n: real) | JHuge | JNotFinite | JString(s: string)
    | JList(items: seq<Json>) | JObject(fields: map<string, Json>)

  /** float(), the number search of a text payload, parse_timestamp, int() and the
      regular expressions' idea of a digit. */
  datatype Parsers = Parsers(
    number: string -> Option<real>, search: string -> Option<real>,
    moment: (Json, string) -> Option<int>, index: string -> Option<int>, digit: char -> bool)

  function DigitRun(s: string, p: Parsers): (n: nat)
    ensures n <= |s| && forall i :: 0 <= i < n ==> p.digit(s[i])
    ensures n < |s| ==> !p.digit(s[n])
  {
    if s != "" && p.digit(s[0]) then 1 + DigitRun(s[1..], p) else 0
  }

  /** Does `s` start with an index like "[12]"? */
  predicate StartsWithIndex(s: string, p: Parsers) {
    s != "" && s[0] == '[' &&
    var n := DigitRun(s[1..], p);
    n > 0 && 1 + n < |s| && s[1 + n] == ']'
  }

  /** Every "[12]" becomes ".12". */
  function Dotted(s: string, p: Parsers): string
    decreases |s|
  {
    if s == "" then ""
    else if StartsWithIndex(s, p) then
      var n := DigitRun(s[1..], p);
      "." + s[1..1 + n] + Dotted(s[2 + n..], p)
    else [s[0]] + Dotted(s[1..], p)
  }

  function NonEmpty(parts: seq<string>): seq<string> {
    if parts == [] then [] else (if parts[0] == "" then [] else [parts[0]]) + NonEmpty(parts[1..])
  }

  function Segments(path: string, p: Parsers): seq<string> {
    NonEmpty(Split(Dotted(path, p), '.'))
  }

  function Step(node: Json, segment: string, p: Parsers): Json {
    match node
    case JList(items) =>
      var i := p.index(segment);
      if i.Some? && -|items| <= i.value < |items|
      then items[if i.value < 0 then |items| + i.value else i.value] else JNull
    case JObject(fields) => if segment in fields then fields[segment] else JNull
    case _ => JNull
  }

  function Walk(node: Json, segments: seq<string>, p: Parsers): Json
    decreases |segments|
  {
    if segments == [] then node else Walk(Step(node, segments[0], p), segments[1..], p)
  }

  method GetPath(document: Json, path: string, p: Parsers) returns (node: Json)
    ensures node == Walk(document, Segments(path, p), p)
  {
    var segments := Segments(path, p);
    node := document;
    for n := 0 to |segments|
      invariant Walk(document, segments, p) == Walk(node, segments[n..], p)
    {
      if node.JNull? {
        NothingBelowNull(segments[n..], p);
        return JNull;
      }
      node := Step(node, segments[n], p);
      assert segments[n..][1..] == segments[n + 1..];
    }
  }

  lemma {:induction false} NothingBelowNull(segments: seq<string>, p: Parsers)
    ensures Walk(JNull, segments, p) == JNull
    decreases |segments|
  {
    if segments == [] {
    } else {
      NothingBelowNull(segments[1..], p);
    }
  }

  lemma {:induction false} WalkAppend(node: Json, a: seq<string>, b: seq<string>, p: Parsers)
    ensures Walk(node, a + b, p) == Walk(Walk(node, a, p), b, p)
    decreases |a|
  {
    if a == [] {
      assert a + b == b;
    } else {
      assert (a + b)[1..] == a[1..] + b;
      WalkAppend(Step(node, a[0], p), a[1..], b, p);
    }
  }

  lemma {:induction false} NonEmptyAppend(a: seq<string>, b: seq<string>)
    ensures NonEmpty(a + b) == NonEmpty(a) + NonEmpty(b)
  {
    if a == [] {
      assert a + b == b;
    } else {
      assert (a + b)[1..] == a[1..] + b;
      NonEmptyAppend(a[1..], b);
    }
  }

  /** What cannot continue an index before it. */
  predicate EndsIndex(s: string, p: Parsers) {
    s == "" || (!p.digit(s[0]) && s[0] != ']')
  }

  /** No run of digits reaches into `b`. */
  lemma {:induction false} DigitRunStops(a: string, b: string, p: Parsers)
    requires EndsIndex(b, p)
    ensures DigitRun(a + b, p) == DigitRun(a, p)
  {
    if a == "" {
      assert a + b == b;
    } else {
      assert (a + b)[1..] == a[1..] + b;
      DigitRunStops(a[1..], b, p);
    }
  }

  /** An index at the front of the left part is seen as one, and only there. */
  lemma IndexBefore(a: string, b: string, p: Parsers)
    requires a != "" && EndsIndex(b, p)
    ensures StartsWithIndex(a + b, p) <==> StartsWithIndex(a, p)
    ensures StartsWithIndex(a, p) ==> DigitRun((a + b)[1..], p) == DigitRun(a[1..], p)
  {
    assert (a + b)[1..] == a[1..] + b;
    DigitRunStops(a[1..], b, p);
  }

  /** The text before the rest of a path, and the rest. */
  function Head(s: string, p: Parsers): (h: (string, nat))
    requires s != ""
    ensures 0 < h.1 <= |s|
  {
    if StartsWithIndex(s, p) then ("." + s[1..1 + DigitRun(s[1..], p)], 2 + DigitRun(s[1..], p)) else ([s[0]], 1)
  }

  lemma DottedByHead(s: string, p: Parsers)
    requires s != ""
    ensures Dotted(s, p) == Head(s, p).0 + Dotted(s[Head(s, p).1..], p)
  {
  }

  lemma HeadBefore(a: string, b: string, p: Parsers)
    requires a != "" && EndsIndex(b, p)
    ensures Head(a + b, p) == Head(a, p) && (a + b)[Head(a, p).1..] == a[Head(a, p).1..] + b
  {
    IndexBefore(a, b, p);
    if StartsWithIndex(a, p) {
      assert (a + b)[1..1 + DigitRun(a[1..], p)] == a[1..1 + DigitRun(a[1..], p)];
    }
  }

  lemma {:induction false} DottedAcross(a: string, b: string, p: Parsers)
    requires EndsIndex(b, p)
    ensures Dotted(a + b, p) == Dotted(a, p) + Dotted(b, p)
    decreases |a|
  {
    if a == "" {
      assert a + b == b;
    } else {
      var head, rest := Head(a, p).0, a[Head(a, p).1..];
      HeadBefore(a, b, p);
      DottedByHead(a + b, p);
      DottedByHead(a, p);
      DottedAcross(rest, b, p);
    }
  }

  lemma DottedAcrossDot(a: string, b: string, p: Parsers)
    requires !p.digit('.')
    ensures Dotted(a + "." + b, p) == Dotted(a, p) + "." + Dotted(b, p)
  {
    DottedAcross(a, "." + b, p);
    DottedDot(b, p);
    assert a + "." + b == a + ("." + b);
    assert Dotted(a, p) + "." + Dotted(b, p) == Dotted(a, p) + ("." + Dotted(b, p));
  }

  lemma DottedDot(b: string, p: Parsers)
    ensures Dotted("." + b, p) == "." + Dotted(b, p)
  {
  }

  /** A dot separates segments. */
  lemma SegmentsAcrossDot(a: string, b: string, p: Parsers)
    requires !p.digit('.')
    ensures Segments(a + "." + b, p) == Segments(a, p) + Segments(b, p)
  {
    DottedAcrossDot(a, b, p);
    SplitAtSeparator(Dotted(a, p), Dotted(b, p), '.');
    NonEmptyAppend(Split(Dotted(a, p), '.'), Split(Dotted(b, p), '.'));
  }

  /** Looking up a root and then a path below it is looking up the joined path, whatever
      counts as a digit but the dot. */
  lemma RootThenPathIsJoinedPath(document: Json, root: string, path: string, p: Parsers)
    requires !p.digit('.')
    ensures Walk(Walk(document, Segments(root, p), p), Segments(path, p), p)
         == Walk(document, Segments(root + "." + path, p), p)
  {
    SegmentsAcrossDot(root, path, p);
    WalkAppend(document, Segments(root, p), Segments(path, p), p);
  }

  // ----- what a path means --------------------------------------------------

  predicate AllDigits(s: string, p: Parsers) {
    forall i :: 0 <= i < |s| ==> p.digit(s[i])
  }

  lemma {:induction false} RunOfDigits(ds: string, b: string, p: Parsers)
    requires AllDigits(ds, p) && (b == "" || !p.digit(b[0]))
    ensures DigitRun(ds + b, p) == |ds|
  {
    if ds == "" {
      assert ds + b == b;
    } else {
      assert (ds + b)[1..] == ds[1..] + b;
      RunOfDigits(ds[1..], b, p);
    }
  }

  /** An index in brackets is its digits behind a dot. */
  lemma DottedIndex(ds: string, b: string, p: Parsers)
    requires ds != "" && AllDigits(ds, p) && !p.digit(']')
    ensures Dotted("[" + ds + "]" + b, p) == "." + ds + Dotted(b, p)
  {
    var s := "[" + ds + "]" + b;
    assert s[1..] == ds + ("]" + b);
    RunOfDigits(ds, "]" + b, p);
    assert s[1..1 + |ds|] == ds && s[2 + |ds|..] == b;
  }

  /** Punctuation is not a digit. */
  predicate Plain(p: Parsers) {
    !p.digit('.') && !p.digit('[') && !p.digit(']')
  }

  /** A text without a dot is one part. */
  lemma {:induction false} SplitNothing(s: string)
    requires '.' !in s
    ensures Split(s, '.') == [s]
  {
    if s == "" {
    } else {
      SplitNothing(s[1..]);
      assert [s[0]] + s[1..] == s;
    }
  }

  lemma DottedEndsInIndex(a: string, ds: string, p: Parsers)
    requires Plain(p) && ds != "" && AllDigits(ds, p)
    ensures Dotted(a + "[" + ds + "]", p) == Dotted(a, p) + "." + ds
  {
    var index := "[" + ds + "]" + "";
    DottedIndex(ds, "", p);
    DottedAcross(a, index, p);
    assert a + "[" + ds + "]" == a + index;
    assert Dotted(a, p) + ("." + ds + "") == Dotted(a, p) + "." + ds;
  }

  /** a[12] has the segments of a, and 12, whatever comes before the bracket. */
  lemma IndexIsSegment(a: string, ds: string, p: Parsers)
    requires Plain(p) && ds != "" && AllDigits(ds, p)
    ensures Segments(a + "[" + ds + "]", p) == Segments(a, p) + [ds]
  {
    DottedEndsInIndex(a, ds, p);
    SplitAtSeparator(Dotted(a, p), ds, '.');
    SplitNothing(ds);
    NonEmptyAppend(Split(Dotted(a, p), '.'), [ds]);
  }

  /** Without brackets a path is its parts between the dots, but for empty ones. */
  lemma {:induction false} NoBracketsNoIndex(path: string, p: Parsers)
    requires '[' !in path
    ensures Dotted(path, p) == path
  {
    if path == "" {
    } else {
      NoBracketsNoIndex(path[1..], p);
      assert [path[0]] + path[1..] == path;
    }
  }

  lemma KeyIsSegment(key: string, p: Parsers)
    requires key != "" && '.' !in key && '[' !in key
    ensures Segments(key, p) == [key] && Segments("", p) == []
  {
    NoBracketsNoIndex(key, p);
    SplitNothing(key);
    assert [key][1..] == [] && [""][1..] == [];
    assert Dotted("", p) == "" && NonEmpty([""]) == [];
  }

  /** One segment: a key of an object, or an index of a list; anything else is not there. */
  lemma StepMeans(node: Json, segment: string, p: Parsers)
    ensures node.JObject? && segment in node.fields ==> Step(node, segment, p) == node.fields[segment]
    ensures node.JObject? && segment !in node.fields ==> Step(node, segment, p) == JNull
    ensures node.JList? && (p.index(segment).None? || !(-|node.items| <= p.index(segment).value < |node.items|)) ==>
      Step(node, segment, p) == JNull
    ensures !node.JObject? && !node.JList? ==> Step(node, segment, p) == JNull
  {
  }

  /** An index counts from the start of a list, or from its end if it is negative. */
  lemma IndexMeans(items: seq<Json>, k: nat, segment: string, p: Parsers)
    requires k < |items| && (p.index(segment) == Some(k) || p.index(segment) == Some(k - |items|))
    ensures Step(JList(items), segment, p) == items[k]
  {
  }

  /** What an object holds at a key, a list at an index, and so on down the path. */
  lemma WalkMeans(node: Json, path: string, key: string, ds: string, p: Parsers)
    requires Plain(p) && key != "" && '.' !in key && '[' !in key && ds != "" && AllDigits(ds, p)
    ensures Walk(node, Segments("", p), p) == node
    ensures Walk(node, Segments(path + "." + key, p), p) == Step(Walk(node, Segments(path, p), p), key, p)
    ensures Walk(node, Segments(path + "[" + ds + "]", p), p) == Step(Walk(node, Segments(path, p), p), ds, p)
  {
    KeyIsSegment(key, p);
    SegmentsAcrossDot(path, key, p);
    IndexIsSegment(path, ds, p);
    WalkAppend(node, Segments(path, p), [key], p);
    WalkAppend(node, Segments(path, p), [ds], p);
    var at := Walk(node, Segments(path, p), p);
    assert [key][1..] == [] && [ds][1..] == [];
    assert Walk(at, [key], p) == Step(at, key, p) && Walk(at, [ds], p) == Step(at, ds, p);
  }
}
