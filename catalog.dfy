/** The read-only catalog queries of the service layer: the period, diet and
    text filters over the dinosaur table, and the per-period counts shown on
    the map page. The catalog is seeded once and never changes, so every query
    here takes the two catalog tables as values, in their stored order. */
module Catalog {
  import opened Models
  import opened Collections

  // ---------------------------------------------------------------- text matching

  /** ASCII lower-casing of one character. */
  function Lower(c: char): char
  {
    if 'A' <= c <= 'Z' then (c as int + 32) as char else c
  }

  function LowerString(s: string): (r: string)
    ensures |r| == |s|
    ensures forall i :: 0 <= i < |s| ==> r[i] == Lower(s[i])
  {
    if s == [] then [] else [Lower(s[0])] + LowerString(s[1..])
  }

  /** `needle` occurs in `hay` starting at position `i`. */
  ghost predicate OccursAt(needle: string, hay: string, i: int)
  {
    0 <= i <= |hay| - |needle| && hay[i..i + |needle|] == needle
  }

  /** `needle` occurs as a contiguous slice of `hay`. */
  ghost predicate Occurs(needle: string, hay: string)
  {
    exists i :: OccursAt(needle, hay, i)
  }

  /** An occurrence is either at the front or somewhere in the tail. */
  lemma OccursStep(needle: string, hay: string)
    requires hay != []
    ensures Occurs(needle, hay) <==> needle <= hay || Occurs(needle, hay[1..])
  {
    var n := |needle|;
    if Occurs(needle, hay) {
      var i :| OccursAt(needle, hay, i);
      if i == 0 {
        assert hay[..n] == needle;
      } else {
        assert hay[1..][i - 1..i - 1 + n] == hay[i..i + n];
        assert OccursAt(needle, hay[1..], i - 1);
      }
    }
    if needle <= hay {
      assert hay[0..n] == needle;
      assert OccursAt(needle, hay, 0);
    }
    if Occurs(needle, hay[1..]) {
      var i :| OccursAt(needle, hay[1..], i);
      assert hay[1..][i..i + n] == hay[i + 1..i + 1 + n] by {
        assert hay[1..][i..i + n] == hay[1..][i..][..n];
        assert hay[1..][i..] == hay[i + 1..];
      }
      assert OccursAt(needle, hay, i + 1);
    }
  }

  /** Substring test by scanning start positions left to right. */
  function HasInfix(hay: string, needle: string): (b: bool)
    ensures b <==> Occurs(needle, hay)
  {
    if needle <= hay then
      assert OccursAt(needle, hay, 0) by { assert hay[0..|needle|] == needle; }
      true
    else if hay == [] then
      false
    else
      OccursStep(needle, hay);
      HasInfix(hay[1..], needle)
  }

  /** Case-insensitive substring match, as the `icontains` lookup does it. */
  function MatchesIgnoringCase(text: string, query: string): bool
  {
    HasInfix(LowerString(text), LowerString(query))
  }

  // ---------------------------------------------------------------- filters

  /** The dinosaurs of the named period; without a name (absent or empty) the
      whole catalog. An unknown name matches nothing. */
  function DinosaursByPeriod(dinosaurs: seq<Dinosaur>, periodName: Option<string>): (r: seq<Dinosaur>)
    ensures periodName.None? || periodName.value == "" ==> r == dinosaurs
    ensures periodName.Some? && periodName.value != "" ==>
              forall d :: d in r <==> d in dinosaurs && PeriodCode(d.period) == periodName.value
    ensures periodName.Some? && periodName.value != "" ==>
              forall d :: multiset(r)[d] == if PeriodCode(d.period) == periodName.value then multiset(dinosaurs)[d] else 0
  {
    if periodName.None? || periodName.value == "" then dinosaurs
    else Filter(dinosaurs, (d: Dinosaur) => PeriodCode(d.period) == periodName.value)
  }

  /** The dinosaurs whose stored diet code equals `diet`. */
  function DinosaursByDiet(dinosaurs: seq<Dinosaur>, diet: string): (r: seq<Dinosaur>)
    ensures forall d :: d in r <==> d in dinosaurs && DietCode(d.diet) == diet
    ensures forall d :: multiset(r)[d] == if DietCode(d.diet) == diet then multiset(dinosaurs)[d] else 0
  {
    Filter(dinosaurs, (d: Dinosaur) => DietCode(d.diet) == diet)
  }

  /** The dinosaurs whose name or scientific name contains `query`, ignoring
      ASCII case. */
  function SearchDinosaurs(dinosaurs: seq<Dinosaur>, query: string): (r: seq<Dinosaur>)
    ensures forall d :: d in r <==>
              && d in dinosaurs
              && (|| Occurs(LowerString(query), LowerString(d.name))
                  || Occurs(LowerString(query), LowerString(d.scientificName)))
    ensures forall d :: multiset(r)[d] ==
              if MatchesIgnoringCase(d.name, query) || MatchesIgnoringCase(d.scientificName, query)
              then multiset(dinosaurs)[d] else 0
  {
    Filter(dinosaurs, (d: Dinosaur) =>
      MatchesIgnoringCase(d.name, query) || MatchesIgnoringCase(d.scientificName, query))
  }

  /** Searching "rex" finds a dinosaur named "Tyrannosaurus Rex". */
  lemma SearchRexFindsTyrannosaurus(t: Dinosaur)
    requires t.name == "Tyrannosaurus Rex"
    ensures t in SearchDinosaurs([t], "rex")
  {
    var lowered := LowerString(t.name);
    assert LowerString("rex") == "rex";
    assert lowered[14..17] == "rex";
    assert OccursAt("rex", lowered, 14);
  }

  /** A diet code outside the three choices matches nothing. */
  lemma UnknownDietMatchesNothing(dinosaurs: seq<Dinosaur>, diet: string)
    requires diet != "herbivore" && diet != "carnivore" && diet != "omnivore"
    ensures DinosaursByDiet(dinosaurs, diet) == []
  {
    var r := DinosaursByDiet(dinosaurs, diet);
    if r != [] {
      assert r[0] in r;
      match r[0].diet
      case Herbivore =>
      case Carnivore =>
      case Omnivore =>
    }
  }

  // ---------------------------------------------------------------- per-period counts

  /** The number of dinosaurs that belong to period `p` (the size of the
      period's reverse relation). */
  function CountInPeriod(dinosaurs: seq<Dinosaur>, p: PeriodName): (n: nat)
    ensures n <= |dinosaurs|
  {
    if dinosaurs == [] then 0
    else (if dinosaurs[0].period == p then 1 else 0) + CountInPeriod(dinosaurs[1..], p)
  }

  /** The count of a period is the size of the period filter for its code. */
  lemma {:induction false} CountIsPeriodFilterSize(dinosaurs: seq<Dinosaur>, p: PeriodName)
    ensures CountInPeriod(dinosaurs, p) == |DinosaursByPeriod(dinosaurs, Some(PeriodCode(p)))|
  {
    if dinosaurs != [] {
      CountIsPeriodFilterSize(dinosaurs[1..], p);
      assert PeriodCode(dinosaurs[0].period) == PeriodCode(p) <==> dinosaurs[0].period == p;
    }
  }

  /** The counts of the periods `periods`, added up. */
  function SumCounts(dinosaurs: seq<Dinosaur>, periods: seq<Period>): nat
  {
    if periods == [] then 0
    else SumCounts(dinosaurs, periods[..|periods| - 1]) + CountInPeriod(dinosaurs, periods[|periods| - 1].name)
  }

  /** How many of `periods` carry the name `n`. */
  function Hits(n: PeriodName, periods: seq<Period>): nat
  {
    if periods == [] then 0
    else Hits(n, periods[..|periods| - 1]) + (if periods[|periods| - 1].name == n then 1 else 0)
  }

  lemma PeriodNamesSnoc(init: seq<Period>, last: Period)
    ensures PeriodNames(init + [last]) == PeriodNames(init) + {last.name}
  {
    var ps := init + [last];
    forall n | n in PeriodNames(ps) ensures n in PeriodNames(init) + {last.name} {
      var p :| p in ps && p.name == n;
      if p != last {
        assert p in init;
      }
    }
    forall n | n in PeriodNames(init) ensures n in PeriodNames(ps) {
      var p :| p in init && p.name == n;
      assert p in ps;
    }
    assert last in ps;
  }

  /** A name listed once among distinct names is hit once; an unlisted one never. */
  lemma {:induction false} HitsOfListedName(n: PeriodName, periods: seq<Period>)
    requires forall i, j :: 0 <= i < j < |periods| ==> periods[i].name != periods[j].name
    ensures Hits(n, periods) == if n in PeriodNames(periods) then 1 else 0
  {
    if periods != [] {
      var init := periods[..|periods| - 1];
      var last := periods[|periods| - 1];
      assert periods == init + [last];
      HitsOfListedName(n, init);
      PeriodNamesSnoc(init, last);
    }
  }

  lemma {:induction false} SumCountsCons(d: Dinosaur, rest: seq<Dinosaur>, periods: seq<Period>)
    ensures SumCounts([d] + rest, periods) == SumCounts(rest, periods) + Hits(d.period, periods)
  {
    if periods != [] {
      SumCountsCons(d, rest, periods[..|periods| - 1]);
      assert ([d] + rest)[1..] == rest;
    }
  }

  /** Every dinosaur lies in exactly one listed period, so the per-period
      counts add up to the size of the catalog. */
  lemma {:induction false} CountsPartitionCatalog(periods: seq<Period>, dinosaurs: seq<Dinosaur>)
    requires forall i, j :: 0 <= i < j < |periods| ==> periods[i].name != periods[j].name
    requires forall d :: d in dinosaurs ==> d.period in PeriodNames(periods)
    ensures SumCounts(dinosaurs, periods) == |dinosaurs|
  {
    if dinosaurs == [] {
      ZeroCounts(periods);
    } else {
      var rest := dinosaurs[1..];
      assert dinosaurs == [dinosaurs[0]] + rest;
      CountsPartitionCatalog(periods, rest);
      SumCountsCons(dinosaurs[0], rest, periods);
      HitsOfListedName(dinosaurs[0].period, periods);
    }
  }

  lemma {:induction false} ZeroCounts(periods: seq<Period>)
    ensures SumCounts([], periods) == 0
  {
    if periods != [] {
      ZeroCounts(periods[..|periods| - 1]);
    }
  }

  // ---------------------------------------------------------------- map data

  datatype MapEntry = MapEntry(period: Period, dinosaurCount: nat)

  function TotalCount(entries: seq<MapEntry>): nat
  {
    if entries == [] then 0
    else TotalCount(entries[..|entries| - 1]) + entries[|entries| - 1].dinosaurCount
  }

  /** One entry per period, in the stored period order, each with the number
      of dinosaurs of that period; over a valid catalog the counts add up to
      the catalog's size. */
  method MapData(periods: seq<Period>, dinosaurs: seq<Dinosaur>) returns (entries: seq<MapEntry>)
    ensures |entries| == |periods|
    ensures forall i :: 0 <= i < |entries| ==>
              entries[i].period == periods[i] && entries[i].dinosaurCount == CountInPeriod(dinosaurs, periods[i].name)
    ensures ValidCatalog(periods, dinosaurs) ==> TotalCount(entries) == |dinosaurs|
  {
    entries := [];
    var i := 0;
    while i < |periods|
      invariant 0 <= i <= |periods|
      invariant |entries| == i
      invariant forall k :: 0 <= k < i ==>
                  entries[k].period == periods[k] && entries[k].dinosaurCount == CountInPeriod(dinosaurs, periods[k].name)
      invariant TotalCount(entries) == SumCounts(dinosaurs, periods[..i])
    {
      var period := periods[i];
      entries := entries + [MapEntry(period, CountInPeriod(dinosaurs, period.name))];
      assert periods[..i + 1][..i] == periods[..i];
      assert entries[..i] == entries[..|entries| - 1];
      i := i + 1;
    }
    assert periods[..i] == periods;
    if ValidCatalog(periods, dinosaurs) {
      CountsPartitionCatalog(periods, dinosaurs);
    }
  }
}
