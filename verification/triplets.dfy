/**
 The triplet table and the triplet extractor (`analyze`).

 The table maps a (precessor, symbol, successor) window of typed text to the
 number of times it was seen. The empty string stands for a boundary: the
 start of the text or, for a successor, the end of a line, and, for a
 precessor, the start of a later line. The process-wide
 dictionary of the program is passed in and returned explicitly.
 */
module Triplets {
  import opened Sums

  /** (precessor, symbol, successor); each component is "" or a single character. */
  type Key = (string, string, string)

  /** Occurrence count of every window seen so far. */
  type Table = map<Key, nat>

  /** The middle symbols of `ks`. */
  ghost function Middles(ks: set<Key>): set<string>
  {
    set k | k in ks :: k.1
  }

  /** The keys whose middle symbol is `s`. */
  ghost function Centred(ks: set<Key>, s: string): set<Key>
  {
    set k | k in ks && k.1 == s
  }

  /** Records one more occurrence of `k`. */
  function Bump(t: Table, k: Key): (r: Table)
    ensures r.Keys == t.Keys + {k}
    ensures r[k] == Get(t, k) + 1
    ensures forall j | j in t && j != k :: r[j] == t[j]
    ensures Total(r) == Total(t) + 1
  {
    TotalAdd(t, k, 1);
    t[k := Get(t, k) + 1]
  }

  /** Records one occurrence of every key of `ks`, in order. */
  function Tally(t: Table, ks: seq<Key>): (r: Table)
    ensures forall k :: k in r <==> k in t || k in ks
    ensures forall k :: Get(r, k) == Get(t, k) + multiset(ks)[k]
    ensures Total(r) == Total(t) + |ks|
    decreases |ks|
  {
    if |ks| == 0 then t
    else
      var b := Bump(t, ks[0]);
      assert ks == [ks[0]] + ks[1..];
      assert forall k :: Get(b, k) == Get(t, k) + if k == ks[0] then 1 else 0;
      Tally(b, ks[1..])
  }

  /** The successor as it is stored: a line end counts as a boundary, but only
      while the current symbol is a real one. */
  function Successor(symbol: string, c: char): (r: string)
    ensures r == "" <==> symbol != "" && c == '\n'
    ensures r != "" ==> r == [c]
  {
    if symbol != "" && c == '\n' then "" else [c]
  }

  /** The keys the scanning loop records, in order, when it stands at
      (`precessor`, `symbol`) with `rest` still to read. An iteration whose
      current symbol is "" records nothing. */
  function Trace(precessor: string, symbol: string, rest: string): (ks: seq<Key>)
    ensures |ks| <= |rest|
    ensures forall i | 0 <= i < |ks| :: ks[i].1 != "" && ks[i].2 != "\n"
    ensures |ks| > 0 && symbol != "" ==> ks[0].0 == precessor && ks[0].1 == symbol
    decreases |rest|
  {
    if |rest| == 0 then []
    else
      var successor := Successor(symbol, rest[0]);
      var here := if symbol != "" then [(precessor, symbol, successor)] else [];
      here + Trace(symbol, successor, rest[1..])
  }

  /** Index of the first character that is not a line end, or of the last
      character when there is none. */
  function Start(text: string): (i: nat)
    requires |text| > 0
    ensures i < |text|
    ensures forall j | 0 <= j < i :: text[j] == '\n'
    ensures text[i] != '\n' || i == |text| - 1
  {
    if text[0] != '\n' || |text| == 1 then 0 else 1 + Start(text[1..])
  }

  /** The keys `analyze` records for one text, in order. */
  function Emitted(text: string): (ks: seq<Key>)
    requires |text| > 0
    ensures |ks| <= |text| - 1
    ensures forall i | 0 <= i < |ks| :: ks[i].1 != "" && ks[i].2 != "\n"
    ensures |ks| > 0 ==> ks[0].0 == "" && ks[0].1 == [text[Start(text)]]
  {
    var start := Start(text);
    Trace("", [text[start]], text[start + 1..])
  }

  /** `analyze`: adds the windows of one text to the table. The program fails on
      an empty text, so one is not allowed here. */
  function Analyze(t: Table, text: string): (r: Table)
    requires |text| > 0
    ensures forall k :: k in r <==> k in t || k in Emitted(text)
    ensures forall k :: Get(r, k) == Get(t, k) + multiset(Emitted(text))[k]
    ensures Total(r) == Total(t) + |Emitted(text)| <= Total(t) + |text| - 1
    ensures forall k | k in r && k !in t :: k.1 != "" && k.2 != "\n"
  {
    Tally(t, Emitted(text))
  }

  /** The window centred on position `i` of a text without line ends. */
  function Window(text: string, i: int): Key
    requires 0 <= i < |text| - 1
  {
    (if i == 0 then "" else [text[i - 1]], [text[i]], [text[i + 1]])
  }

  ghost predicate NoLineEnds(text: string)
  {
    forall i | 0 <= i < |text| :: text[i] != '\n'
  }

  lemma {:induction false} TraceOfLine(precessor: string, s: string)
    requires |s| > 0 && NoLineEnds(s)
    ensures |Trace(precessor, [s[0]], s[1..])| == |s| - 1
    ensures forall i | 0 <= i < |s| - 1 ::
      Trace(precessor, [s[0]], s[1..])[i] == (if i == 0 then precessor else [s[i - 1]], [s[i]], [s[i + 1]])
    decreases |s|
  {
    if |s| > 1 {
      var s' := s[1..];
      assert s'[1..] == s[2..];
      TraceOfLine([s[0]], s');
      assert Successor([s[0]], s[1]) == [s[1]];
      assert Trace(precessor, [s[0]], s[1..])
          == [(precessor, [s[0]], [s[1]])] + Trace([s[0]], [s'[0]], s'[1..]);
    }
  }

  /** On a text without line ends, `analyze` records exactly the sliding windows:
      one per character but the last, with a boundary before the first. */
  lemma EmittedWindows(text: string)
    requires |text| > 0 && NoLineEnds(text)
    ensures |Emitted(text)| == |text| - 1
    ensures forall i | 0 <= i < |text| - 1 :: Emitted(text)[i] == Window(text, i)
  {
    assert Start(text) == 0;
    TraceOfLine("", text);
  }

  /** Leading line ends are skipped. */
  lemma LeadingLineEndSkipped(text: string)
    requires |text| > 0
    ensures Emitted("\n" + text) == Emitted(text)
  {
    var s := "\n" + text;
    assert s[1..] == text;
    assert Start(s) == 1 + Start(text);
    assert s[Start(s) + 1..] == text[Start(text) + 1..];
  }

  /** A text made only of line ends records nothing. */
  lemma OnlyLineEnds(text: string)
    requires |text| > 0
    requires forall i | 0 <= i < |text| :: text[i] == '\n'
    ensures Emitted(text) == []
  {
  }

  lemma ExampleLineEnd()
    ensures Emitted("ab\n") == [("", "a", "b"), ("a", "b", "")]
  {
    assert Start("ab\n") == 0;
    assert "ab\n"[1..] == "b\n";
  }

  /** Both windows of "ab\n" are counted once in an empty table. */
  lemma ExampleLineEndCounts()
    ensures Analyze(map[], "ab\n") == map[("", "a", "b") := 1, ("a", "b", "") := 1]
  {
    var e := Emitted("ab\n");
    ExampleLineEnd();
    var k1, k2 := ("", "a", "b"), ("a", "b", "");
    assert multiset(e) == multiset{k1, k2};
    var r := Analyze(map[], "ab\n");
    assert r.Keys == {k1, k2};
    assert Get(r, k1) == 1 && Get(r, k2) == 1;
  }

  lemma ExampleNoLineEnd()
    ensures Emitted("ab") == [("", "a", "b")]
  {
    assert Start("ab") == 0;
    assert "ab"[1..] == "b";
  }

  /** After a line end the current symbol is ""; a second line end is then read
      without normalisation and becomes a symbol of its own. */
  lemma ExampleBlankLine()
    ensures Emitted("a\n\nb") == [("", "a", ""), ("", "\n", "b")]
  {
    assert Start("a\n\nb") == 0;
    assert "a\n\nb"[1..] == "\n\nb";
    assert "\n\nb"[1..] == "\nb";
    assert "\nb"[1..] == "b";
  }

  /** Two tables with the same keys and the same counts are the same table. */
  lemma SameCounts(a: Table, b: Table)
    requires forall k :: k in a <==> k in b
    requires forall k :: Get(a, k) == Get(b, k)
    ensures a == b
  {
    forall k | k in a
      ensures a[k] == b[k]
    {
      assert Get(a, k) == Get(b, k);
    }
  }

  /** Reading two texts adds the windows of both. */
  lemma AnalyzeTwice(t: Table, a: string, b: string)
    requires |a| > 0 && |b| > 0
    ensures var r := Analyze(Analyze(t, a), b);
            && (forall k :: k in r <==> k in t || k in Emitted(a) || k in Emitted(b))
            && (forall k :: Get(r, k) == Get(t, k) + multiset(Emitted(a))[k] + multiset(Emitted(b))[k])
  {
  }

  /** Texts accumulate into one table independently of the order they are read in. */
  lemma AnalyzeCommutes(t: Table, a: string, b: string)
    requires |a| > 0 && |b| > 0
    ensures Analyze(Analyze(t, a), b) == Analyze(Analyze(t, b), a)
  {
    AnalyzeTwice(t, a, b);
    AnalyzeTwice(t, b, a);
    SameCounts(Analyze(Analyze(t, a), b), Analyze(Analyze(t, b), a));
  }

  /** No key occurs twice. */
  ghost predicate Distinct(order: seq<Key>)
  {
    forall i, j | 0 <= i < j < |order| :: order[i] != order[j]
  }

  /** `sorted(TRIPLETS.items(), key=-count)`: every key exactly once, most frequent first. */
  ghost predicate DescendingByCount(t: Table, order: seq<Key>)
  {
    && Distinct(order)
    && (forall k :: k in order <==> k in t)
    && (forall i, j | 0 <= i < j < |order| :: Get(t, order[j]) <= Get(t, order[i]))
  }

  lemma {:induction false} MostFrequentExists(t: Table, s: set<Key>)
    requires s != {}
    ensures exists k :: k in s && forall j | j in s :: Get(t, j) <= Get(t, k)
    decreases s
  {
    var k :| k in s;
    if s != {k} {
      MostFrequentExists(t, s - {k});
      var m :| m in s - {k} && forall j | j in s - {k} :: Get(t, j) <= Get(t, m);
      if Get(t, k) <= Get(t, m) {
        assert forall j | j in s :: Get(t, j) <= Get(t, m);
      } else {
        assert forall j | j in s :: Get(t, j) <= Get(t, k);
      }
    }
  }

  /** Lists the keys of the table from the most to the least frequent; the order
      among equal counts is left open. */
  method SortByCount(t: Table) returns (order: seq<Key>)
    ensures DescendingByCount(t, order)
  {
    order := [];
    var remaining := t.Keys;
    while remaining != {}
      invariant remaining <= t.Keys
      invariant forall k :: k in order <==> k in t && k !in remaining
      invariant forall i, j | 0 <= i < j < |order| :: order[i] != order[j]
      invariant forall i, j | 0 <= i < j < |order| :: Get(t, order[j]) <= Get(t, order[i])
      invariant forall i, k | 0 <= i < |order| && k in remaining :: Get(t, k) <= Get(t, order[i])
      decreases remaining
    {
      MostFrequentExists(t, remaining);
      var k :| k in remaining && forall j | j in remaining :: Get(t, j) <= Get(t, k);
      order := order + [k];
      remaining := remaining - {k};
    }
  }
}
