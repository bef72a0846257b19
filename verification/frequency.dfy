/**
 The counting part of `compute_frequency`: per-symbol occurrence counts over
 the middle symbol of every triplet, their grand total, and the same restricted
 to alphabetic symbols and summed under the lower-cased symbol. What counts as
 alphabetic and how a symbol is lower-cased are parameters.
 */
module Frequency {
  import opened Sums
  import opened Triplets

  datatype Frequencies = Frequencies(
    occurrences: map<string, nat>,
    totalOccurrences: nat,
    letterOccurrences: map<string, nat>,
    totalLetterOccurrences: nat)

  /** The lower-cased alphabetic middle symbols of `ks`. */
  ghost function LetterMiddles(ks: set<Key>, isAlpha: string -> bool, lower: string -> string): set<string>
  {
    set k | k in ks && isAlpha(k.1) :: lower(k.1)
  }

  /** The keys whose middle symbol is alphabetic. */
  ghost function Letters(ks: set<Key>, isAlpha: string -> bool): set<Key>
  {
    set k | k in ks && isAlpha(k.1)
  }

  /** The keys whose middle symbol is alphabetic and lower-cases to `l`. */
  ghost function FoldingTo(ks: set<Key>, isAlpha: string -> bool, lower: string -> string, l: string): set<Key>
  {
    set k | k in ks && isAlpha(k.1) && lower(k.1) == l
  }

  /*
   Both halves of the count are one grouping: every key of the table that has
   a tag is counted under it. For the symbol counts the tag is the middle
   symbol; for the letter counts only alphabetic keys have one, their
   lower-cased middle symbol.
   */

  /** Labels every key by its middle symbol. */
  ghost function SymbolLabels(t: Table): (tag: map<Key, string>)
    ensures tag.Keys == t.Keys
    ensures forall k | k in tag :: tag[k] == k.1
  {
    map k | k in t :: k.1
  }

  /** Labels the alphabetic keys by their lower-cased middle symbol. */
  ghost function LetterLabels(t: Table, isAlpha: string -> bool, lower: string -> string): (tag: map<Key, string>)
    ensures forall k :: k in tag <==> k in t && isAlpha(k.1)
    ensures forall k | k in tag :: tag[k] == lower(k.1)
  {
    map k | k in t && isAlpha(k.1) :: lower(k.1)
  }

  /** The labelled keys of `ks`. */
  ghost function Labelled(ks: set<Key>, tag: map<Key, string>): set<Key>
  {
    set k | k in ks && k in tag
  }

  /** The labels of the keys of `ks`. */
  ghost function Labels(ks: set<Key>, tag: map<Key, string>): set<string>
  {
    set k | k in ks && k in tag :: tag[k]
  }

  /** The keys of `ks` labelled `g`. */
  ghost function Group(ks: set<Key>, tag: map<Key, string>, g: string): set<Key>
  {
    set k | k in ks && k in tag && tag[k] == g
  }

  /** The count kept under `g` is the sum over the keys of `done` labelled `g`. */
  ghost predicate GroupCounted(t: Table, tag: map<Key, string>, done: set<Key>, m: map<string, nat>, g: string)
  {
    Get(m, g) == SumOver(t, Group(done, tag, g))
  }

  /** `m` and `total` count exactly the labelled keys of `done`. */
  ghost predicate Grouped(t: Table, tag: map<Key, string>, done: set<Key>, m: map<string, nat>, total: nat)
  {
    && total == SumOver(t, Labelled(done, tag))
    && m.Keys == Labels(done, tag)
    && (forall g :: GroupCounted(t, tag, done, m, g))
    && Total(m) == total
  }

  lemma NothingGrouped(t: Table, tag: map<Key, string>)
    ensures Grouped(t, tag, {}, map[], 0)
  {
    assert Labelled({}, tag) == {};
    assert Labels({}, tag) == {};
    forall g
      ensures GroupCounted(t, tag, {}, map[], g)
    {
      assert Group({}, tag, g) == {};
    }
  }

  /** How the groupings grow by a labelled key. */
  lemma GroupsGrow(done: set<Key>, tag: map<Key, string>, k: Key)
    requires k in tag
    ensures Labelled(done + {k}, tag) == Labelled(done, tag) + {k}
    ensures Labels(done + {k}, tag) == Labels(done, tag) + {tag[k]}
    ensures Group(done + {k}, tag, tag[k]) == Group(done, tag, tag[k]) + {k}
  {
  }

  /** Visiting a labelled `k` adds its count under its tag. */
  lemma GroupedAdd(t: Table, tag: map<Key, string>, done: set<Key>, m: map<string, nat>, total: nat,
                    k: Key, g0: string)
    requires k in t && k !in done && k in tag && tag[k] == g0
    requires Grouped(t, tag, done, m, total)
    ensures Grouped(t, tag, done + {k}, m[g0 := Get(m, g0) + t[k]], total + t[k])
  {
    var m' := m[g0 := Get(m, g0) + t[k]];
    GroupsGrow(done, tag, k);
    SumOverAdd(t, Labelled(done, tag), k);
    forall g
      ensures GroupCounted(t, tag, done + {k}, m', g)
    {
      assert GroupCounted(t, tag, done, m, g);
      if g == g0 {
        SumOverAdd(t, Group(done, tag, g), k);
      } else {
        assert Group(done + {k}, tag, g) == Group(done, tag, g);
      }
    }
    TotalAdd(m, g0, t[k]);
  }

  /** Visiting an unlabelled `k` changes nothing. */
  lemma GroupedSkip(t: Table, tag: map<Key, string>, done: set<Key>, m: map<string, nat>, total: nat, k: Key)
    requires k !in tag
    requires Grouped(t, tag, done, m, total)
    ensures Grouped(t, tag, done + {k}, m, total)
  {
    assert Labelled(done + {k}, tag) == Labelled(done, tag);
    assert Labels(done + {k}, tag) == Labels(done, tag);
    forall g
      ensures GroupCounted(t, tag, done + {k}, m, g)
    {
      assert GroupCounted(t, tag, done, m, g);
      assert Group(done + {k}, tag, g) == Group(done, tag, g);
    }
  }

  /** The symbol half of one iteration of the counting loop: `k` is counted
      under its middle symbol. */
  method CountSymbol(t: Table, ghost symbolOf: map<Key, string>, ghost done: set<Key>,
                     occurrences: map<string, nat>, total: nat, k: Key)
    returns (occurrences': map<string, nat>, total': nat)
    requires k in t && k !in done && k in symbolOf && symbolOf[k] == k.1
    requires Grouped(t, symbolOf, done, occurrences, total)
    ensures Grouped(t, symbolOf, done + {k}, occurrences', total')
    ensures occurrences' == occurrences[k.1 := Get(occurrences, k.1) + t[k]] && total' == total + t[k]
  {
    var symbol, count := k.1, t[k];
    GroupedAdd(t, symbolOf, done, occurrences, total, k, symbol);
    occurrences' := occurrences[symbol := Get(occurrences, symbol) + count];
    total' := total + count;
  }

  /** The letter half of one iteration: `k` is counted under its lower-cased
      middle symbol when that symbol is alphabetic, and not at all otherwise. */
  method CountLetter(t: Table, isAlpha: string -> bool, lower: string -> string,
                     ghost letterOf: map<Key, string>, ghost done: set<Key>,
                     letters: map<string, nat>, total: nat, k: Key)
    returns (letters': map<string, nat>, total': nat)
    requires k in t && k !in done
    requires (k in letterOf <==> isAlpha(k.1)) && (k in letterOf ==> letterOf[k] == lower(k.1))
    requires Grouped(t, letterOf, done, letters, total)
    ensures Grouped(t, letterOf, done + {k}, letters', total')
    ensures isAlpha(k.1) ==> letters' == letters[lower(k.1) := Get(letters, lower(k.1)) + t[k]] && total' == total + t[k]
    ensures !isAlpha(k.1) ==> letters' == letters && total' == total
  {
    var symbol, count := k.1, t[k];
    if isAlpha(symbol) {
      var l := lower(symbol);
      GroupedAdd(t, letterOf, done, letters, total, k, l);
      letters' := letters[l := Get(letters, l) + count];
      total' := total + count;
    } else {
      GroupedSkip(t, letterOf, done, letters, total, k);
      letters', total' := letters, total;
    }
  }

  /** `compute_frequency` without the report: visits the table in any order. */
  method ComputeFrequency(t: Table, isAlpha: string -> bool, lower: string -> string) returns (f: Frequencies)
    ensures f.totalOccurrences == Total(t)
    ensures f.occurrences.Keys == Middles(t.Keys)
    ensures forall s :: Get(f.occurrences, s) == SumOver(t, Centred(t.Keys, s))
    ensures Total(f.occurrences) == f.totalOccurrences
    ensures f.letterOccurrences.Keys == LetterMiddles(t.Keys, isAlpha, lower)
    ensures forall l :: Get(f.letterOccurrences, l) == SumOver(t, FoldingTo(t.Keys, isAlpha, lower, l))
    ensures f.totalLetterOccurrences == SumOver(t, Letters(t.Keys, isAlpha))
    ensures Total(f.letterOccurrences) == f.totalLetterOccurrences
    ensures f.totalLetterOccurrences <= f.totalOccurrences
  {
    ghost var symbolOf, letterOf := SymbolLabels(t), LetterLabels(t, isAlpha, lower);
    var occurrences, total, letters, letterTotal := map[], 0, map[], 0;
    var done: set<Key> := {};
    var remaining := t.Keys;
    NothingGrouped(t, symbolOf);
    NothingGrouped(t, letterOf);
    while remaining != {}
      invariant done + remaining == t.Keys && done !! remaining
      invariant Grouped(t, symbolOf, done, occurrences, total)
      invariant Grouped(t, letterOf, done, letters, letterTotal)
      decreases remaining
    {
      var k :| k in remaining;
      occurrences, total := CountSymbol(t, symbolOf, done, occurrences, total, k);
      letters, letterTotal := CountLetter(t, isAlpha, lower, letterOf, done, letters, letterTotal, k);
      done := done + {k};
      remaining := remaining - {k};
    }
    f := Frequencies(occurrences, total, letters, letterTotal);
    Summarized(t, isAlpha, lower, f);
  }

  /** Over the whole table, the symbol grouping is the one by middle symbol. */
  lemma SymbolsSummarized(t: Table, m: map<string, nat>, total: nat)
    requires Grouped(t, SymbolLabels(t), t.Keys, m, total)
    ensures total == Total(t) == Total(m)
    ensures m.Keys == Middles(t.Keys)
    ensures forall s :: Get(m, s) == SumOver(t, Centred(t.Keys, s))
  {
    var symbolOf := SymbolLabels(t);
    assert Labelled(t.Keys, symbolOf) == t.Keys;
    assert Labels(t.Keys, symbolOf) == Middles(t.Keys);
    forall s
      ensures Get(m, s) == SumOver(t, Centred(t.Keys, s))
    {
      assert GroupCounted(t, symbolOf, t.Keys, m, s);
      assert Group(t.Keys, symbolOf, s) == Centred(t.Keys, s);
    }
  }

  /** The groups of the letter labels are the alphabetic keys, by lower-cased symbol. */
  lemma LetterGroups(t: Table, isAlpha: string -> bool, lower: string -> string)
    ensures Labelled(t.Keys, LetterLabels(t, isAlpha, lower)) == Letters(t.Keys, isAlpha)
    ensures Labels(t.Keys, LetterLabels(t, isAlpha, lower)) == LetterMiddles(t.Keys, isAlpha, lower)
    ensures forall l :: Group(t.Keys, LetterLabels(t, isAlpha, lower), l) == FoldingTo(t.Keys, isAlpha, lower, l)
  {
    var letterOf := LetterLabels(t, isAlpha, lower);
    assert Labelled(t.Keys, letterOf) == Letters(t.Keys, isAlpha);
    assert Labels(t.Keys, letterOf) == LetterMiddles(t.Keys, isAlpha, lower);
    forall l
      ensures Group(t.Keys, letterOf, l) == FoldingTo(t.Keys, isAlpha, lower, l)
    {
    }
  }

  /** Over the whole table, the letter grouping is the one by lower-cased alphabetic symbol. */
  lemma LettersSummarized(t: Table, isAlpha: string -> bool, lower: string -> string, m: map<string, nat>, total: nat)
    requires Grouped(t, LetterLabels(t, isAlpha, lower), t.Keys, m, total)
    ensures total == SumOver(t, Letters(t.Keys, isAlpha)) == Total(m)
    ensures m.Keys == LetterMiddles(t.Keys, isAlpha, lower)
    ensures forall l :: Get(m, l) == SumOver(t, FoldingTo(t.Keys, isAlpha, lower, l))
  {
    var letterOf := LetterLabels(t, isAlpha, lower);
    LetterGroups(t, isAlpha, lower);
    assert total == SumOver(t, Letters(t.Keys, isAlpha));
    forall l
      ensures Get(m, l) == SumOver(t, FoldingTo(t.Keys, isAlpha, lower, l))
    {
      assert GroupCounted(t, letterOf, t.Keys, m, l);
      assert Group(t.Keys, letterOf, l) == FoldingTo(t.Keys, isAlpha, lower, l);
    }
  }

  /** What the two groupings over the whole table say about the result. */
  lemma Summarized(t: Table, isAlpha: string -> bool, lower: string -> string, f: Frequencies)
    requires Grouped(t, SymbolLabels(t), t.Keys, f.occurrences, f.totalOccurrences)
    requires Grouped(t, LetterLabels(t, isAlpha, lower), t.Keys, f.letterOccurrences, f.totalLetterOccurrences)
    ensures f.totalOccurrences == Total(t)
    ensures f.occurrences.Keys == Middles(t.Keys)
    ensures forall s :: Get(f.occurrences, s) == SumOver(t, Centred(t.Keys, s))
    ensures Total(f.occurrences) == f.totalOccurrences
    ensures f.letterOccurrences.Keys == LetterMiddles(t.Keys, isAlpha, lower)
    ensures forall l :: Get(f.letterOccurrences, l) == SumOver(t, FoldingTo(t.Keys, isAlpha, lower, l))
    ensures f.totalLetterOccurrences == SumOver(t, Letters(t.Keys, isAlpha))
    ensures Total(f.letterOccurrences) == f.totalLetterOccurrences
    ensures f.totalLetterOccurrences <= f.totalOccurrences
  {
    SymbolsSummarized(t, f.occurrences, f.totalOccurrences);
    LettersSummarized(t, isAlpha, lower, f.letterOccurrences, f.totalLetterOccurrences);
    SumOverSubset(t, Letters(t.Keys, isAlpha), t.Keys);
  }
}
