/** The stateful part of the service layer: an in-memory store holding the
    seeded catalog and the per-user tables (profiles with token balances,
    album items keyed by user and dinosaur, and the log of game scores),
    with the services that read and update them. */
module Services {
  import opened Models
  import opened Collections
  import opened Scores

  /** The progress summary: totals, what is left, and the percentage. */
  datatype Progress = Progress(total: nat, collected: nat, remaining: int, percentage: real)

  /** A balance after adding `amount` (a debit when negative), with any
      excess debit absorbed by the floor at 0. */
  function Credit(balance: int, amount: int): (r: int)
    ensures r >= 0 && r >= balance + amount
    ensures r == 0 || r == balance + amount
  {
    if balance + amount < 0 then 0 else balance + amount
  }

  /** Each profile is stored under its own user and has a balance of at least 0. */
  ghost predicate ProfilesValid(profiles: map<UserId, UserProfile>)
  {
    forall u :: u in profiles ==> profiles[u].user == u && ValidProfile(profiles[u])
  }

  /** Each album item is stored under its own (user, dinosaur) pair, refers to
      a catalog dinosaur, and has a collection time exactly when collected. */
  ghost predicate AlbumValid(album: map<UserId, map<DinosaurId, AlbumItem>>, ids: set<DinosaurId>)
  {
    forall u: UserId, d: DinosaurId {:trigger album[u][d]} :: u in album && d in album[u] ==>
      && album[u][d].user == u
      && album[u][d].dinosaur == d
      && d in ids
      && ValidAlbumItem(album[u][d])
  }

  /** The album items of user `u`. */
  function ItemsOf(album: map<UserId, map<DinosaurId, AlbumItem>>, u: UserId): map<DinosaurId, AlbumItem>
  {
    if u in album then album[u] else map[]
  }

  /** Storing a well-formed item under its own pair keeps the album valid. */
  lemma PutKeepsAlbumValid(album: map<UserId, map<DinosaurId, AlbumItem>>, ids: set<DinosaurId>, item: AlbumItem)
    requires AlbumValid(album, ids)
    requires item.dinosaur in ids && ValidAlbumItem(item)
    ensures AlbumValid(album[item.user := ItemsOf(album, item.user)[item.dinosaur := item]], ids)
  {
    var after: map<UserId, map<DinosaurId, AlbumItem>> := album[item.user := ItemsOf(album, item.user)[item.dinosaur := item]];
    forall u: UserId, d: DinosaurId | u in after && d in after[u]
      ensures after[u][d].user == u && after[u][d].dinosaur == d && d in ids && ValidAlbumItem(after[u][d])
    {
      if u != item.user {
        assert after[u][d] == album[u][d];
      } else if d != item.dinosaur {
        assert u in album && after[u][d] == album[u][d];
      } else {
        assert after[u][d] == item;
      }
    }
  }

  /** Every item collected in `before` is still in `after`, unchanged: it is
      still collected and keeps its original collection time. */
  ghost predicate AlbumExtends(before: map<UserId, map<DinosaurId, AlbumItem>>,
                               after: map<UserId, map<DinosaurId, AlbumItem>>)
  {
    forall u: UserId, d: DinosaurId :: u in before && d in before[u] && before[u][d].isCollected ==>
      u in after && d in after[u] && after[u][d] == before[u][d]
  }

  /** Storing an item over a pair that held no collected item keeps every
      collected item in place. */
  lemma PutKeepsCollected(album: map<UserId, map<DinosaurId, AlbumItem>>, item: AlbumItem)
    requires !(item.user in album && item.dinosaur in album[item.user] && album[item.user][item.dinosaur].isCollected)
    ensures AlbumExtends(album, album[item.user := ItemsOf(album, item.user)[item.dinosaur := item]])
  {
    var after: map<UserId, map<DinosaurId, AlbumItem>> := album[item.user := ItemsOf(album, item.user)[item.dinosaur := item]];
    forall u: UserId, d: DinosaurId | u in album && d in album[u] && album[u][d].isCollected
      ensures u in after && d in after[u] && after[u][d] == album[u][d]
    {
      if u == item.user {
        assert d != item.dinosaur;
      }
    }
  }

  /** The dinosaurs collected among a user's album items. */
  function CollectedIn(items: map<DinosaurId, AlbumItem>): set<DinosaurId>
  {
    set d | d in items && items[d].isCollected
  }

  /** When every item key is a catalog id, the collected items are exactly the
      ids of the catalog dinosaurs whose item is collected. */
  lemma CollectedAreCatalogIds(items: map<DinosaurId, AlbumItem>, dinosaurs: seq<Dinosaur>)
    requires items.Keys <= Ids(dinosaurs)
    ensures CollectedIn(items) == set d | d in dinosaurs && d.id in items && items[d.id].isCollected :: d.id
  {
    forall x | x in CollectedIn(items)
      ensures x in set d | d in dinosaurs && d.id in items && items[d.id].isCollected :: d.id
    {
      assert x in Ids(dinosaurs);
      var d :| d in dinosaurs && d.id == x;
    }
  }

  /** A user's collected dinosaurs are catalog dinosaurs, so there are no more
      of them than catalog entries; there are as many exactly when every
      catalog dinosaur is collected. */
  lemma CollectedWithinCatalog(items: map<DinosaurId, AlbumItem>, dinosaurs: seq<Dinosaur>)
    requires items.Keys <= Ids(dinosaurs)
    requires forall i, j :: 0 <= i < j < |dinosaurs| ==> dinosaurs[i].id != dinosaurs[j].id
    ensures |CollectedIn(items)| <= |dinosaurs|
    ensures |CollectedIn(items)| >= |dinosaurs| <==>
              forall d :: d in dinosaurs ==> d.id in items && items[d.id].isCollected
  {
    assert Ids(dinosaurs) <= CollectedIn(items) <==>
           forall d :: d in dinosaurs ==> d.id in items && items[d.id].isCollected by {
      if forall d :: d in dinosaurs ==> d.id in items && items[d.id].isCollected {
        forall x | x in Ids(dinosaurs) ensures x in CollectedIn(items) {
          var d :| d in dinosaurs && d.id == x;
        }
      }
      if Ids(dinosaurs) <= CollectedIn(items) {
        forall d | d in dinosaurs ensures d.id in items && items[d.id].isCollected {
          assert d.id in Ids(dinosaurs);
        }
      }
    }
    IdsCount(dinosaurs);
    SubsetSize(CollectedIn(items), Ids(dinosaurs));
    if |CollectedIn(items)| >= |dinosaurs| {
      SubsetOfEqualSize(CollectedIn(items), Ids(dinosaurs));
    }
    if Ids(dinosaurs) <= CollectedIn(items) {
      SubsetSize(Ids(dinosaurs), CollectedIn(items));
    }
  }

  /** A score belongs to user `u` and, when a game is named, to that game. */
  predicate IsUserScore(g: GameScore, u: UserId, gameType: Option<GameType>)
  {
    g.user == u && (gameType.Some? ==> g.gameType == gameType.value)
  }

  class Store {
    const periods: seq<Period>
    const dinosaurs: seq<Dinosaur>
    var profiles: map<UserId, UserProfile>
    var album: map<UserId, map<DinosaurId, AlbumItem>>
    var scores: seq<GameScore>

    ghost predicate Valid()
      reads this
    {
      && ValidCatalog(periods, dinosaurs)
      && ProfilesValid(profiles)
      && AlbumValid(album, Ids(dinosaurs))
    }

    /** A store over a seeded catalog, with no users' data yet. */
    constructor (periods: seq<Period>, dinosaurs: seq<Dinosaur>)
      requires ValidCatalog(periods, dinosaurs)
      ensures Valid()
      ensures this.periods == periods && this.dinosaurs == dinosaurs
      ensures profiles == map[] && album == map[] && scores == []
    {
      this.periods := periods;
      this.dinosaurs := dinosaurs;
      profiles := map[];
      album := map[];
      scores := [];
    }

    // ------------------------------------------------------------ views of the tables

    /** The balance of `u`, counting a missing profile as a fresh one. */
    function Balance(u: UserId): int
      reads this
    {
      if u in profiles then profiles[u].tokens else NewProfile(u).tokens
    }

    function Items(u: UserId): map<DinosaurId, AlbumItem>
      reads this
    {
      ItemsOf(album, u)
    }

    predicate IsCollected(u: UserId, d: DinosaurId)
      reads this
    {
      d in Items(u) && Items(u)[d].isCollected
    }

    // ------------------------------------------------------------ queries

    /** `get_user_progress`: the catalog size, the number of the user's
        collected items, what remains, and the completion percentage. */
    function UserProgress(u: UserId): (p: Progress)
      reads this
      requires Valid()
      ensures p.total == |dinosaurs|
      ensures p.collected <= p.total
      ensures p.remaining == p.total - p.collected && p.remaining >= 0
      ensures p.percentage == Percentage(p.collected, p.total)
      ensures 0.0 <= p.percentage <= 100.0
      ensures p.total == 0 ==> p.percentage == 0.0
      ensures p.collected == |set d | d in dinosaurs && IsCollected(u, d.id) :: d.id|
      ensures p.collected == p.total <==> forall d :: d in dinosaurs ==> IsCollected(u, d.id)
    {
      var total := |dinosaurs|;
      var collected := |CollectedIn(Items(u))|;
      CollectedWithinCatalog(Items(u), dinosaurs);
      CollectedAreCatalogIds(Items(u), dinosaurs);
      assert (set d | d in dinosaurs && IsCollected(u, d.id) :: d.id) ==
             set d | d in dinosaurs && d.id in Items(u) && Items(u)[d.id].isCollected :: d.id;
      Progress(total, collected, total - collected, Percentage(collected, total))
    }

    /** `check_album_completion`: the percentage has reached 100, which
        happens exactly when the catalog is not empty and the user has
        collected every dinosaur in it. */
    predicate AlbumComplete(u: UserId): (b: bool)
      reads this
      requires Valid()
      ensures b <==> UserProgress(u).percentage >= 100.0
      ensures b <==> |dinosaurs| > 0 && forall d :: d in dinosaurs ==> IsCollected(u, d.id)
    {
      UserProgress(u).percentage >= 100.0
    }

    /** `UserProfile.progress_percentage`: checks for an empty catalog before
        counting, and agrees with the percentage of `get_user_progress`. */
    function ProfileProgressPercentage(u: UserId): (p: real)
      reads this
      requires Valid()
      ensures p == UserProgress(u).percentage
    {
      var total := |dinosaurs|;
      if total == 0 then 0.0
      else Percentage(|CollectedIn(Items(u))|, total)
    }

    /** `get_user_high_scores`: at most ten of the user's records (of one game
        when named), best first; a matching record is left out only when ten
        are returned, and then it scores no more than any returned one. */
    function UserHighScores(u: UserId, gameType: Option<GameType>): (r: seq<GameScore>)
      reads this
      ensures |r| <= 10
      ensures forall g :: g in r ==> g in scores && IsUserScore(g, u, gameType)
      ensures SortedByScore(r)
      ensures multiset(r) <= multiset(scores)
      ensures forall g :: g in multiset(scores) - multiset(r) && IsUserScore(g, u, gameType) ==>
                |r| == 10 && forall h :: h in r ==> g.score <= h.score
    {
      var keep := (g: GameScore) => IsUserScore(g, u, gameType);
      var mine := Filter(scores, keep);
      var r := TopByScore(mine, 10);
      r
    }

    // ------------------------------------------------------------ updates

    /** `get_or_create_user_profile`: inserts a fresh profile (balance 0) only
        when the user has none; otherwise changes nothing. */
    method GetOrCreateProfile(u: UserId) returns (p: UserProfile)
      requires Valid()
      modifies this`profiles
      ensures Valid()
      ensures u in profiles && p == profiles[u]
      ensures p.tokens == old(Balance(u))
      ensures old(u in profiles) ==> profiles == old(profiles)
      ensures old(u !in profiles) ==> profiles == old(profiles)[u := UserProfile(u, 0)]
    {
      if u in profiles {
        p := profiles[u];
      } else {
        p := NewProfile(u);
        profiles := profiles[u := p];
      }
    }

    /** `update_user_tokens`: adds `amount` to the user's balance (creating the
        profile first if needed), floors the result at 0, and returns it. No
        other user's balance changes. */
    method UpdateUserTokens(u: UserId, amount: int) returns (tokens: int)
      requires Valid()
      modifies this`profiles
      ensures Valid()
      ensures tokens == Credit(old(Balance(u)), amount)
      ensures profiles == old(profiles)[u := UserProfile(u, tokens)]
    {
      var profile := GetOrCreateProfile(u);
      tokens := profile.tokens + amount;
      if tokens < 0 {
        tokens := 0;
      }
      profiles := profiles[u := profile.(tokens := tokens)];
    }

    /** `collect_dinosaur`: makes sure the (user, dinosaur) item exists; if it
        was not collected, marks it collected at `now` and pays 10 tokens;
        if it was, changes nothing, so a dinosaur is paid for at most once. */
    method CollectDinosaur(u: UserId, dinosaur: Dinosaur, now: Timestamp) returns (item: AlbumItem)
      requires Valid()
      requires dinosaur in dinosaurs
      modifies this`album, this`profiles
      ensures Valid()
      ensures u in album && dinosaur.id in album[u] && album[u][dinosaur.id] == item
      ensures item.isCollected
      ensures AlbumExtends(old(album), album)
      ensures old(IsCollected(u, dinosaur.id)) ==> album == old(album) && profiles == old(profiles)
      ensures !old(IsCollected(u, dinosaur.id)) ==>
                && item == AlbumItem(u, dinosaur.id, true, Some(now))
                && album == old(album)[u := old(Items(u))[dinosaur.id := item]]
                && profiles == old(profiles)[u := UserProfile(u, old(Balance(u)) + 10)]
    {
      var d := dinosaur.id;
      var items := Items(u);
      if d in items && items[d].isCollected {
        item := items[d];
      } else {
        // creating the item and then flipping it leaves the same final row
        item := AlbumItem(u, d, true, Some(now));
        assert d in Ids(dinosaurs);
        PutKeepsAlbumValid(album, Ids(dinosaurs), item);
        PutKeepsCollected(album, item);
        album := album[u := items[d := item]];
        var balance := UpdateUserTokens(u, 10);
      }
    }

    /** `save_game_score`: appends one score record, then credits
        `TokenAward(score)` tokens. Because every award is at least 1 and
        balances are never negative, the balance always strictly rises. */
    method SaveGameScore(u: UserId, gameType: GameType, score: int, now: Timestamp) returns (record: GameScore)
      requires Valid()
      modifies this`scores, this`profiles
      ensures Valid()
      ensures record == GameScore(u, gameType, score, now)
      ensures scores == old(scores) + [record]
      ensures profiles == old(profiles)[u := UserProfile(u, old(Balance(u)) + TokenAward(score))]
      ensures Balance(u) > old(Balance(u))
    {
      record := GameScore(u, gameType, score, now);
      scores := scores + [record];
      var balance := UpdateUserTokens(u, TokenAward(score));
    }
  }

  /** Collecting the same dinosaur twice in a row pays 10 tokens for a first
      collection and nothing more, and the item keeps the first call's time. */
  method CollectTwicePaysOnce(store: Store, u: UserId, dinosaur: Dinosaur, first: Timestamp, second: Timestamp)
    requires store.Valid()
    requires dinosaur in store.dinosaurs
    modifies store
    ensures store.Valid()
    ensures store.IsCollected(u, dinosaur.id)
    ensures old(store.IsCollected(u, dinosaur.id)) ==> store.Balance(u) == old(store.Balance(u))
    ensures !old(store.IsCollected(u, dinosaur.id)) ==>
              store.Balance(u) == old(store.Balance(u)) + 10 &&
              store.album[u][dinosaur.id].collectedAt == Some(first)
  {
    var once := store.CollectDinosaur(u, dinosaur, first);
    var twice := store.CollectDinosaur(u, dinosaur, second);
  }
}
