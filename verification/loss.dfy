/**
 The aggregation loop of `thumb_key_loss`: the triplets are visited from the
 most to the least frequent; a triplet naming a symbol the layout does not
 place is skipped; every other one is scored and its loss is added to the
 per-triplet, per-symbol and total figures; the loop stops right after the
 first scored triplet centred on "e".
 */
module Loss {
  import opened Sums
  import opened Triplets
  import opened Layout

  /** The geometric part of the loss of typing a symbol, as a function of the
      approach vector (from where the previous symbol left the thumb to the
      primary key of this one) and the stroke vector (from that primary key to
      where the swipe ends). In the program it is built from Euclidean lengths
      and a cosine similarity; here it is left open. */
  type Geometry = (Point, Point) -> real

  ghost predicate NonNegative(geometry: Geometry)
  {
    forall a, b :: geometry(a, b) >= 0.0
  }

  /** The loss of one triplet, or none when one of its symbols is not placed. */
  datatype Scored = Skipped | Scored(loss: real)

  /** From where the thumb rests after typing at `from` to the primary key of `to`. */
  function Approach(from: Position, to: Position): (a: Point)
    ensures Add(Dest(from), a) == Coord(to.primary)
    ensures from.secondary == 5 ==> a == Delta(Coord(from.primary), Coord(to.primary))
  {
    Delta(Dest(from), Coord(to.primary))
  }

  /** The body of the loop for one triplet: a swipe penalty of 1 when the middle
      symbol is not a tap, plus the geometric cost. The successor only has to
      be placed; where it is plays no part. */
  function TripletLoss(positions: map<string, Position>, geometry: Geometry, k: Key): (r: Scored)
    ensures r.Scored? <==> k.0 in positions && k.1 in positions && k.2 in positions
  {
    if k.0 !in positions || k.1 !in positions || k.2 !in positions then Skipped
    else
      var p, s := positions[k.0], positions[k.1];
      var penalty := if s.secondary != 5 then 1.0 else 0.0;
      Scored(penalty + geometry(Approach(p, s), Delta(Coord(s.primary), Dest(s))))
  }

  /** A tapped symbol (secondary key 5) costs the geometry of a stroke of
      length zero and no penalty; any other costs exactly 1 more than the
      geometry of its stroke, which for a key of the grid is never zero. */
  lemma SwipePenalty(positions: map<string, Position>, geometry: Geometry, k: Key)
    requires k.0 in positions && k.1 in positions && k.2 in positions
    ensures var s := positions[k.1];
            var approach := Approach(positions[k.0], s);
            && (s.secondary == 5 ==> TripletLoss(positions, geometry, k).loss == geometry(approach, Point(0, 0)))
            && (s.secondary != 5 ==> TripletLoss(positions, geometry, k).loss == 1.0 + geometry(approach, Coord(s.secondary)))
            && (1 <= s.secondary <= 9 && s.secondary != 5 ==> Coord(s.secondary) != Point(0, 0))
  {
    var s := positions[k.1];
    assert Delta(Coord(s.primary), Dest(s)) == Coord(s.secondary);
    CentreIsOrigin();
  }

  /** Where the successor sits does not change the loss. */
  lemma SuccessorOnlyGates(positions: map<string, Position>, geometry: Geometry, k: Key, successor: string)
    requires k.2 in positions && successor in positions
    ensures TripletLoss(positions, geometry, k) == TripletLoss(positions, geometry, (k.0, k.1, successor))
  {
  }

  /** `triplet_impact`, `loss_per_symbol` and `total_loss`. */
  datatype Report = Report(tripletImpact: map<Key, real>, lossPerSymbol: map<string, real>, totalLoss: real)

  const NoLoss := Report(map[], map[], 0.0)

  /** Adds the loss of triplet `k` to the report. */
  function Record(r: Report, k: Key, loss: real): (r': Report)
    ensures r'.tripletImpact.Keys == r.tripletImpact.Keys + {k} && r'.tripletImpact[k] == loss
    ensures forall j | j in r.tripletImpact && j != k :: r'.tripletImpact[j] == r.tripletImpact[j]
    ensures r'.lossPerSymbol.Keys == r.lossPerSymbol.Keys + {k.1}
    ensures forall s | s in r'.lossPerSymbol :: r'.lossPerSymbol[s] == RealGet(r.lossPerSymbol, s) + (if s == k.1 then loss else 0.0)
    ensures r'.totalLoss == r.totalLoss + loss
  {
    Report(r.tripletImpact[k := loss],
           r.lossPerSymbol[k.1 := RealGet(r.lossPerSymbol, k.1) + loss],
           r.totalLoss + loss)
  }

  /** The total is the sum of the triplet losses and the sum of the symbol losses. */
  ghost predicate Balanced(r: Report)
  {
    && r.totalLoss == RealTotal(r.tripletImpact)
    && r.totalLoss == RealTotal(r.lossPerSymbol)
  }

  lemma NoLossBalanced()
    ensures Balanced(NoLoss)
  {
  }

  /** Recording a triplet not yet recorded keeps the report balanced. */
  lemma RecordBalanced(r: Report, k: Key, loss: real)
    requires Balanced(r) && k !in r.tripletImpact
    ensures Balanced(Record(r, k, loss))
  {
    RealTotalAdd(r.tripletImpact, k, loss);
    assert r.tripletImpact[k := RealGet(r.tripletImpact, k) + loss] == r.tripletImpact[k := loss];
    RealTotalAdd(r.lossPerSymbol, k.1, loss);
  }

  /** The loss kept under symbol `s` is the sum of the recorded triplet losses centred on `s`. */
  ghost predicate SymbolLossCounted(r: Report, s: string)
  {
    RealGet(r.lossPerSymbol, s) == RealSumOver(r.tripletImpact, Centred(r.tripletImpact.Keys, s))
  }

  /** `loss_per_symbol` is `triplet_impact` summed by middle symbol. */
  ghost predicate PerSymbol(r: Report)
  {
    && r.lossPerSymbol.Keys == Middles(r.tripletImpact.Keys)
    && forall s :: SymbolLossCounted(r, s)
  }

  lemma NoLossPerSymbol()
    ensures PerSymbol(NoLoss)
  {
    assert Middles({}) == {};
    forall s
      ensures SymbolLossCounted(NoLoss, s)
    {
      assert Centred({}, s) == {};
    }
  }

  /** Recording a triplet not yet recorded keeps `loss_per_symbol` the sum by middle symbol. */
  lemma RecordPerSymbol(r: Report, k: Key, loss: real)
    requires PerSymbol(r) && k !in r.tripletImpact
    ensures PerSymbol(Record(r, k, loss))
  {
    var r' := Record(r, k, loss);
    var keys := r.tripletImpact.Keys;
    assert r'.tripletImpact.Keys == keys + {k};
    assert Middles(keys + {k}) == Middles(keys) + {k.1};
    forall s
      ensures SymbolLossCounted(r', s)
    {
      assert SymbolLossCounted(r, s);
      var c := Centred(keys, s);
      RealSumOverFrame(r.tripletImpact, r'.tripletImpact, c);
      if s == k.1 {
        assert Centred(keys + {k}, s) == c + {k};
        RealSumOverRemove(r'.tripletImpact, c + {k}, k);
        assert c + {k} - {k} == c;
      } else {
        assert Centred(keys + {k}, s) == c;
      }
    }
  }

  /** The loop stops after this triplet. */
  predicate Stops(positions: map<string, Position>, geometry: Geometry, k: Key)
  {
    TripletLoss(positions, geometry, k).Scored? && k.1 == "e"
  }

  /** The loop of `thumb_key_loss` over the triplets of `order`, adding to `acc`. */
  function Run(positions: map<string, Position>, geometry: Geometry, order: seq<Key>, acc: Report): (r: Report)
    ensures forall k | k in r.tripletImpact && k !in acc.tripletImpact ::
              k in order && TripletLoss(positions, geometry, k).Scored?
    ensures NonNegative(geometry) ==> r.totalLoss >= acc.totalLoss
    decreases |order|
  {
    if |order| == 0 then acc
    else
      var k := order[0];
      match TripletLoss(positions, geometry, k)
      case Skipped => Run(positions, geometry, order[1..], acc)
      case Scored(loss) =>
        var recorded := Record(acc, k, loss);
        if k.1 == "e" then recorded else Run(positions, geometry, order[1..], recorded)
  }

  /** One visit of the loop: a skipped triplet moves on, a scored one is
      recorded, and a scored one centred on "e" ends the loop. */
  lemma RunStep(positions: map<string, Position>, geometry: Geometry, order: seq<Key>, acc: Report)
    requires |order| > 0
    ensures var k := order[0];
            Run(positions, geometry, order, acc) ==
              match TripletLoss(positions, geometry, k)
              case Skipped => Run(positions, geometry, order[1..], acc)
              case Scored(loss) =>
                if k.1 == "e" then Record(acc, k, loss)
                else Run(positions, geometry, order[1..], Record(acc, k, loss))
  {
  }

  /** The first `n` triplets of `order` are its head and the first `n - 1` of its tail. */
  lemma PrefixOfTail(order: seq<Key>, n: int)
    requires 0 < n <= |order|
    ensures forall q :: q in order[..n] <==> q == order[0] || q in order[1..][..n - 1]
  {
    assert order[..n] == [order[0]] + order[1..][..n - 1];
  }

  /** The tail of a sequence of distinct triplets is distinct and misses the head. */
  lemma DistinctTail(order: seq<Key>)
    requires |order| > 0 && Distinct(order)
    ensures Distinct(order[1..]) && order[0] !in order[1..]
  {
    assert forall j | 0 <= j < |order| - 1 :: order[1..][j] == order[j + 1];
  }

  /** Over distinct triplets not yet in the report, the total stays the sum of
      the triplet losses and the sum of the symbol losses. */
  lemma {:induction false} RunBalanced(positions: map<string, Position>, geometry: Geometry, order: seq<Key>, acc: Report)
    requires Distinct(order)
    requires forall k | k in order :: k !in acc.tripletImpact
    requires Balanced(acc)
    ensures Balanced(Run(positions, geometry, order, acc))
    decreases |order|
  {
    if |order| > 0 {
      var k := order[0];
      DistinctTail(order);
      match TripletLoss(positions, geometry, k)
      case Skipped =>
        RunBalanced(positions, geometry, order[1..], acc);
      case Scored(loss) =>
        RecordBalanced(acc, k, loss);
        if k.1 != "e" {
          RunBalanced(positions, geometry, order[1..], Record(acc, k, loss));
        }
    }
  }

  /** Over distinct triplets not yet in the report, `loss_per_symbol` stays
      `triplet_impact` summed by middle symbol. */
  lemma {:induction false} RunPerSymbol(positions: map<string, Position>, geometry: Geometry, order: seq<Key>, acc: Report)
    requires Distinct(order)
    requires forall k | k in order :: k !in acc.tripletImpact
    requires PerSymbol(acc)
    ensures PerSymbol(Run(positions, geometry, order, acc))
    decreases |order|
  {
    if |order| > 0 {
      var k := order[0];
      DistinctTail(order);
      match TripletLoss(positions, geometry, k)
      case Skipped =>
        RunPerSymbol(positions, geometry, order[1..], acc);
      case Scored(loss) =>
        RecordPerSymbol(acc, k, loss);
        if k.1 != "e" {
          RunPerSymbol(positions, geometry, order[1..], Record(acc, k, loss));
        }
    }
  }

  /** A skipped triplet contributes nothing: taking it out of the order changes no figure. */
  lemma {:induction false} SkippedTripletIsInert(positions: map<string, Position>, geometry: Geometry,
                                                  order: seq<Key>, acc: Report, i: int)
    requires 0 <= i < |order|
    requires TripletLoss(positions, geometry, order[i]).Skipped?
    ensures Run(positions, geometry, order, acc) == Run(positions, geometry, order[..i] + order[i + 1..], acc)
    decreases i
  {
    if i == 0 {
      assert order[..0] + order[1..] == order[1..];
    } else {
      var rest := order[..i] + order[i + 1..];
      assert rest[0] == order[0];
      assert rest[1..] == order[1..][..i - 1] + order[1..][i..];
      var k := order[0];
      match TripletLoss(positions, geometry, k)
      case Skipped =>
        SkippedTripletIsInert(positions, geometry, order[1..], acc, i - 1);
      case Scored(loss) =>
        if k.1 != "e" {
          SkippedTripletIsInert(positions, geometry, order[1..], Record(acc, k, loss), i - 1);
        }
    }
  }

  /** Nothing after a scored triplet centred on "e" is visited. */
  lemma {:induction false} NothingAfterE(positions: map<string, Position>, geometry: Geometry,
                                         order: seq<Key>, acc: Report, i: int)
    requires 0 <= i < |order| && order[i].1 == "e"
    requires order[i].0 in positions && order[i].1 in positions && order[i].2 in positions
    ensures Run(positions, geometry, order, acc) == Run(positions, geometry, order[..i + 1], acc)
    decreases i
  {
    var prefix := order[..i + 1];
    assert prefix[0] == order[0];
    if i > 0 {
      assert prefix[1..] == order[1..][..i];
      var k := order[0];
      match TripletLoss(positions, geometry, k)
      case Skipped =>
        NothingAfterE(positions, geometry, order[1..], acc, i - 1);
      case Scored(loss) =>
        if k.1 != "e" {
          NothingAfterE(positions, geometry, order[1..], Record(acc, k, loss), i - 1);
        }
    }
  }

  /** `n` is where the loop stops: right after the first triplet it stops at,
      or at the end of `order` when there is none. */
  ghost predicate CutsAt(positions: map<string, Position>, geometry: Geometry, order: seq<Key>, n: int)
  {
    && 0 <= n <= |order|
    && (forall j | 0 <= j < n - 1 :: !Stops(positions, geometry, order[j]))
    && (n < |order| ==> 0 < n && Stops(positions, geometry, order[n - 1]))
  }

  /** Where the loop over `order` stops; every order has a cut. */
  function Cut(positions: map<string, Position>, geometry: Geometry, order: seq<Key>): (n: nat)
    ensures CutsAt(positions, geometry, order, n)
    decreases |order|
  {
    if |order| == 0 then 0
    else if Stops(positions, geometry, order[0]) then 1
    else 1 + Cut(positions, geometry, order[1..])
  }

  /** The triplets recorded are exactly the scored ones before the cut, and
      what was recorded before stays recorded. */
  lemma {:induction false} RunRecords(positions: map<string, Position>, geometry: Geometry,
                                      order: seq<Key>, acc: Report, n: int)
    requires CutsAt(positions, geometry, order, n)
    ensures var r := Run(positions, geometry, order, acc);
            forall k :: k in r.tripletImpact <==>
                          k in acc.tripletImpact || (k in order[..n] && TripletLoss(positions, geometry, k).Scored?)
    decreases |order|
  {
    if |order| > 0 {
      var k := order[0];
      PrefixOfTail(order, n);
      match TripletLoss(positions, geometry, k)
      case Skipped =>
        RunRecords(positions, geometry, order[1..], acc, n - 1);
      case Scored(loss) =>
        if k.1 != "e" {
          RunRecords(positions, geometry, order[1..], Record(acc, k, loss), n - 1);
        }
    }
  }

  /** Each triplet recorded by the loop carries its own loss, and what was
      recorded before keeps its value. */
  lemma {:induction false} RunImpacts(positions: map<string, Position>, geometry: Geometry,
                                      order: seq<Key>, acc: Report)
    requires Distinct(order)
    requires forall k | k in order :: k !in acc.tripletImpact
    ensures var r := Run(positions, geometry, order, acc);
            forall k | k in r.tripletImpact && k !in acc.tripletImpact ::
              r.tripletImpact[k] == TripletLoss(positions, geometry, k).loss
    ensures var r := Run(positions, geometry, order, acc);
            forall k | k in acc.tripletImpact :: k in r.tripletImpact && r.tripletImpact[k] == acc.tripletImpact[k]
    decreases |order|
  {
    if |order| > 0 {
      var k := order[0];
      DistinctTail(order);
      match TripletLoss(positions, geometry, k)
      case Skipped =>
        RunImpacts(positions, geometry, order[1..], acc);
      case Scored(loss) =>
        if k.1 != "e" {
          RunImpacts(positions, geometry, order[1..], Record(acc, k, loss));
        }
    }
  }

  /** `thumb_key_loss` without the report printing: builds the layout, orders
      the table and runs the loop. Returns the order it visited and the figures. */
  method ThumbKeyLoss(t: Table, rows: seq<Row>, geometry: Geometry) returns (order: seq<Key>, report: Report)
    ensures DescendingByCount(t, order)
    ensures report == Run(Positions(rows), geometry, order, NoLoss)
    ensures Balanced(report)
    ensures PerSymbol(report)
    ensures NonNegative(geometry) ==> report.totalLoss >= 0.0
    ensures forall k | k in report.tripletImpact ::
              k in t && k.0 in Positions(rows) && k.1 in Positions(rows) && k.2 in Positions(rows)
    ensures forall k :: k in report.tripletImpact <==>
              k in order[..Cut(Positions(rows), geometry, order)] && TripletLoss(Positions(rows), geometry, k).Scored?
    ensures forall k | k in report.tripletImpact :: report.tripletImpact[k] == TripletLoss(Positions(rows), geometry, k).loss
  {
    var positions := Positions(rows);
    order := SortByCount(t);
    report := NoLoss;
    var i := 0;
    while i < |order|
      invariant 0 <= i <= |order|
      invariant Run(positions, geometry, order, NoLoss) == Run(positions, geometry, order[i..], report)
    {
      var k := order[i];
      assert order[i..][1..] == order[i + 1..];
      RunStep(positions, geometry, order[i..], report);
      match TripletLoss(positions, geometry, k) {
        case Skipped =>
        case Scored(loss) =>
          report := Record(report, k, loss);
          if k.1 == "e" {
            break;
          }
      }
      i := i + 1;
    }
    NoLossBalanced();
    RunBalanced(positions, geometry, order, NoLoss);
    NoLossPerSymbol();
    RunPerSymbol(positions, geometry, order, NoLoss);
    RunRecords(positions, geometry, order, NoLoss, Cut(positions, geometry, order));
    RunImpacts(positions, geometry, order, NoLoss);
  }
}
