/** Record shapes, choice lists and declared constraints of the encyclopedia's
    tables: periods, dinosaurs, user profiles, album items and game scores. */
module Models {

  datatype Option<T> = None | Some(value: T)

  type UserId = nat
  type DinosaurId = nat

  /** An opaque clock reading, as `timezone.now()` or `auto_now_add` would give it. */
  type Timestamp = int

  // ---------------------------------------------------------------- Period

  datatype PeriodName = Triassic | Jurassic | Cretaceous

  /** The stored code of a period name (the first element of each choice pair). */
  function PeriodCode(n: PeriodName): string
  {
    match n
    case Triassic => "triassic"
    case Jurassic => "jurassic"
    case Cretaceous => "cretaceous"
  }

  datatype Era = Mesozoic

  datatype Period = Period(name: PeriodName, era: Era, startMya: int, endMya: int, description: string)

  // ---------------------------------------------------------------- Dinosaur

  datatype Diet = Herbivore | Carnivore | Omnivore

  function DietCode(d: Diet): string
  {
    match d
    case Herbivore => "herbivore"
    case Carnivore => "carnivore"
    case Omnivore => "omnivore"
  }

  /** A catalog entry. `period` refers to the Period row by its unique name;
      the two decimal measurements are kept in hundredths (two decimal places). */
  datatype Dinosaur = Dinosaur(
    id: DinosaurId,
    name: string,
    scientificName: string,
    period: PeriodName,
    diet: Diet,
    lengthHundredths: int,
    weightHundredths: int,
    description: string,
    funFact: string,
    discoveredYear: Option<int>)
  {
    /** The declared validators: length and weight at least 0.1, and a
        discovery year, when given, within [1800, 2100]. */
    predicate Valid()
    {
      && lengthHundredths >= 10
      && weightHundredths >= 10
      && (discoveredYear.Some? ==> 1800 <= discoveredYear.value <= 2100)
    }
  }

  function PeriodNames(periods: seq<Period>): set<PeriodName>
  {
    set p | p in periods :: p.name
  }

  function Ids(dinosaurs: seq<Dinosaur>): set<DinosaurId>
  {
    set d | d in dinosaurs :: d.id
  }

  /** The seeded reference data: period names are unique and listed by
      `start_mya`, most ancient first; dinosaur ids are unique keys; every
      dinosaur refers to one of the periods. The catalog is seeded once with
      rows that meet the dinosaur validators, so they are assumed of it too,
      although no operation relies on them. */
  ghost predicate ValidCatalog(periods: seq<Period>, dinosaurs: seq<Dinosaur>)
  {
    && (forall i, j :: 0 <= i < j < |periods| ==> periods[i].name != periods[j].name)
    && (forall i, j :: 0 <= i < j < |periods| ==> periods[i].startMya >= periods[j].startMya)
    && (forall i, j :: 0 <= i < j < |dinosaurs| ==> dinosaurs[i].id != dinosaurs[j].id)
    && (forall d :: d in dinosaurs ==> d.period in PeriodNames(periods) && d.Valid())
  }

  /** Distinct keys make the key set as large as the catalog. */
  lemma {:induction false} IdsCount(dinosaurs: seq<Dinosaur>)
    requires forall i, j :: 0 <= i < j < |dinosaurs| ==> dinosaurs[i].id != dinosaurs[j].id
    ensures |Ids(dinosaurs)| == |dinosaurs|
  {
    if dinosaurs != [] {
      var rest := dinosaurs[1..];
      IdsCount(rest);
      assert dinosaurs == [dinosaurs[0]] + rest;
      assert Ids(dinosaurs) == {dinosaurs[0].id} + Ids(rest);
      forall x | x in Ids(rest) ensures x != dinosaurs[0].id {
        var k :| 0 <= k < |rest| && rest[k].id == x;
        assert dinosaurs[k + 1].id == x;
      }
    }
  }

  // ---------------------------------------------------------------- UserProfile

  /** One profile per user (avatar and timestamps are not modelled). */
  datatype UserProfile = UserProfile(user: UserId, tokens: int)

  /** A freshly created profile: the token balance defaults to 0. */
  function NewProfile(u: UserId): UserProfile
  {
    UserProfile(u, 0)
  }

  /** The declared `tokens >= 0`. */
  predicate ValidProfile(p: UserProfile)
  {
    p.tokens >= 0
  }

  // ---------------------------------------------------------------- AlbumItem

  datatype AlbumItem = AlbumItem(user: UserId, dinosaur: DinosaurId, isCollected: bool, collectedAt: Option<Timestamp>)

  /** An item carries a collection time exactly when it is collected. */
  predicate ValidAlbumItem(a: AlbumItem)
  {
    a.isCollected <==> a.collectedAt.Some?
  }

  // ---------------------------------------------------------------- GameScore

  datatype GameType = Puzzleaurus | Memodyn

  /** A recorded game result. The declared `score >= 0` is a validator that
      record creation does not run, so the score is any integer. */
  datatype GameScore = GameScore(user: UserId, gameType: GameType, score: int, completedAt: Timestamp)

  // ---------------------------------------------------------------- progress

  /** The completion percentage `collected / total * 100`, and 0 for an empty
      catalog, in exact arithmetic. */
  function Percentage(collected: nat, total: nat): (p: real)
    ensures total == 0 ==> p == 0.0
    ensures p >= 0.0
    ensures collected <= total ==> p <= 100.0
    ensures p >= 100.0 <==> total > 0 && collected >= total
  {
    if total == 0 then 0.0
    else
      var q := collected as real / total as real;
      assert q * total as real == collected as real;
      assert collected >= total ==> q >= 1.0;
      assert collected <= total ==> q <= 1.0;
      q * 100.0
  }
}
