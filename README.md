# Dino Encyclopedia: service layer model

A Dafny model of the business logic of the Dino Encyclopedia web application:
the service functions in `encyclopedia/services.py` and the records and
constraints they rely on in `encyclopedia/models.py`.

The database is modelled as an in-memory store, `Services.Store`:

- the **catalog** (periods and dinosaurs) is seeded once and is read-only, so it is held in two `const` sequences in stored order;
- **profiles** map each user to a token balance;
- the **album** maps a user and a dinosaur to an album item; keying the map by the pair makes an item unique per (user, dinosaur), as the `unique_together` constraint does;
- **scores** are an append-only log of game results.

The mutating services are methods on the store:

- `GetOrCreateProfile`
- `UpdateUserTokens`: the token ledger with its floor at 0
- `CollectDinosaur`: a one-time bonus of 10 tokens
- `SaveGameScore`: an award of `max(1, score // 10)` tokens

Every method keeps the store invariant `Valid()`:

- balances are never negative;
- every album item points at a catalog dinosaur and is stored under its own (user, dinosaur) pair;
- an item carries a collection time exactly when it is collected;
- the catalog meets its declared constraints:
  - period names are unique;
  - periods are ordered by `start_mya`, most ancient first;
  - dinosaur keys are unique;
  - each dinosaur's period is one of the stored periods;
  - diet is one of three choices and the discovery year lies in [1800, 2100].

The queries are functions:

- over the store: `UserProgress`, `AlbumComplete`, `ProfileProgressPercentage` and `UserHighScores`;
- over the catalog tables: the period, diet and search filters in module `Catalog`, and the per-period map data.

Modules:

- `Collections`: a generic order-preserving filter and two set-size lemmas.
- `Models`: the records, the choice lists as datatypes, the catalog constraints and the percentage formula.
- `Catalog`: the ASCII case-insensitive substring match, the three filters, per-period counts and `MapData`.
- `Scores`: the token award and the best-first ranking (insertion sort, then the first k).
- `Services`: the store, its invariant and the services.

Clock readings (`timezone.now()`, `auto_now_add`) are passed in as a `Timestamp` parameter. Users are plain identifiers.

## Model

| member | source | states |
|---|---|---|
| `Models.Percentage` | encyclopedia/services.py:66-68 | The percentage is 0 for an empty catalog and never negative. It is at most 100 when collected <= total. It reaches 100 exactly when the catalog is non-empty and collected >= total. |
| `Catalog.HasInfix` | encyclopedia/services.py:48-50 | Scanning start positions returns true exactly when the needle occurs as a contiguous slice of the text. This is the substring test under `icontains`. |
| `Catalog.DinosaursByPeriod` | encyclopedia/services.py:20-22 | With no period name (absent or empty) the result is the whole catalog. Otherwise a dinosaur is in the result iff it is in the catalog and its period's code equals the name, and each matching entry occurs exactly as often as in the catalog. |
| `Catalog.DinosaursByDiet` | encyclopedia/services.py:35 | A dinosaur is in the result iff it is in the catalog and its diet code equals the requested diet. Each matching entry occurs exactly as often as in the catalog. |
| `Catalog.SearchDinosaurs` | encyclopedia/services.py:48-50 | A dinosaur is in the result iff it is in the catalog and the query occurs in its name or its scientific name, both lower-cased (ASCII). Each matching entry occurs exactly as often as in the catalog. |
| `Catalog.SearchRexFindsTyrannosaurus` | encyclopedia/services.py:48-50 | Searching "rex" finds a dinosaur named "Tyrannosaurus Rex". |
| `Catalog.UnknownDietMatchesNothing` | encyclopedia/services.py:35 | A diet string outside the three choices returns no dinosaurs. |
| `Catalog.CountIsPeriodFilterSize` | encyclopedia/services.py:151 | A period's dinosaur count equals the size of the period filter for that period's code. |
| `Catalog.CountsPartitionCatalog` | encyclopedia/models.py:41 | Period names are unique and every dinosaur belongs to a listed period, so the per-period counts add up to the catalog size. |
| `Catalog.MapData` | encyclopedia/services.py:145-154 | There is one entry per period, in the stored period order. Each entry holds its period and that period's dinosaur count. Over a valid catalog the counts add up to the number of dinosaurs. |
| `Scores.TokenAward` | encyclopedia/services.py:176 | The award is at least 1. Any score below 20, including negative ones, earns exactly 1. From 10 upward the award is the floor of score/10. |
| `Scores.TokenAwardExamples` | encyclopedia/services.py:176 | Score 47 earns 4 tokens, score 3 earns 1 and score -5 earns 1. |
| `Scores.SortByScore` | encyclopedia/services.py:196 | The result is ordered by score, non-increasing, and is a permutation of the input. |
| `Scores.TopByScore` | encyclopedia/services.py:196 | The result has min(k, n) records, best first, taken from the input with multiplicity. It has all the input when n <= k. A record is left out only when k are returned, and it then scores no more than any record kept. |
| `Scores.TopByScoreExample` | encyclopedia/services.py:196 | Scores 5, 90 and 40 come back ordered 90, 40, 5. |
| `Services.Credit` | encyclopedia/services.py:90-92 | The new balance is max(0, balance + amount): never negative, never below balance + amount, and equal to 0 or to balance + amount. |
| `Services.CollectedWithinCatalog` | encyclopedia/models.py:102 | A user's collected items, keyed by catalog dinosaur, number at most the catalog size. They number as many exactly when every catalog dinosaur is collected. |
| `Services.CollectedAreCatalogIds` | encyclopedia/services.py:64 | When every album key is a catalog id, the user's collected items are exactly the ids of the catalog dinosaurs whose item is collected. |
| `Services.Store.constructor` | encyclopedia/models.py:18-25 | A store over a catalog that meets the declared constraints is valid and holds no profiles, album items or scores. |
| `Services.Store.UserProgress` | encyclopedia/services.py:63-75 | total is the catalog size. collected is the number of catalog dinosaurs the user has a collected item for, so collected <= total. remaining = total - collected, which is >= 0. The percentage follows the formula and lies in [0, 100], and is 0 for an empty catalog. collected = total iff every catalog dinosaur is collected. |
| `Services.Store.AlbumComplete` | encyclopedia/services.py:134-135 | Completion holds iff the percentage is >= 100. It also holds iff the catalog is non-empty and the user has collected every dinosaur in it. |
| `Services.Store.ProfileProgressPercentage` | encyclopedia/models.py:84-91 | The profile property, which checks for an empty catalog before counting, equals the percentage of `get_user_progress`. |
| `Services.Store.UserHighScores` | encyclopedia/services.py:193-196 | It returns at most 10 records, all from the score log, all of the user and of the named game if one is given. They are ordered by score, non-increasing. A matching record is left out only when 10 are returned, and it then scores no more than any returned record. |
| `Services.Store.GetOrCreateProfile` | encyclopedia/services.py:209-210 | The user has a profile afterwards and it is returned. An existing profile leaves the table unchanged. Otherwise exactly one profile with balance 0 is added. The invariant is kept. |
| `Services.Store.UpdateUserTokens` | encyclopedia/services.py:89-94 | The stored and returned balance is Credit(old balance, amount), with a missing profile counting as balance 0. Only this user's profile changes. Balances stay non-negative. |
| `Services.Store.CollectDinosaur` | encyclopedia/services.py:108-121 | Afterwards the (user, dinosaur) item exists and is collected. If it was already collected, nothing changes: no payment, same timestamp. Otherwise it becomes collected at `now` and the balance rises by exactly 10. No other item or user changes, and collected items stay collected. |
| `Services.Store.SaveGameScore` | encyclopedia/services.py:169-179 | Exactly one record (user, game, score, now) is appended to the log. The balance rises by TokenAward(score), so it strictly increases for every score, negative ones included. Nothing else changes. |
| `Services.CollectTwicePaysOnce` | encyclopedia/services.py:113-119 | Two collections of the same dinosaur in a row pay 10 tokens in total if it was uncollected, and nothing if it was already collected. The item keeps the first call's collection time. |

## Left out

- `Models.Percentage`: it is exact real arithmetic, not Python's `round(x, 2)` on floats. With rounding, a catalog of more than 20000 entries could show 100.0 one dinosaur short of complete. The model says completion happens exactly when everything is collected.
- `Scores.SortByScore`: the database does not specify the order among equal scores. The model fixes one order and promises only the score order.
- Catalog filters: their contracts state the matching set and its exact multiplicities. The results keep the stored order of the catalog sequence, but no contract states it, and `ValidCatalog` does not require that order to be by name.
- Case-insensitive matching lower-cases ASCII letters only. There is no Unicode case folding.
- The length and weight decimals are carried as hundredths, as data only. Images, avatars and the `created_at`/`updated_at` stamps are not modelled.
- `Services.Store.SaveGameScore`, `Services.Store.UpdateUserTokens`: the integer range of the `score` and `tokens` columns is not modelled. A value outside it makes the database raise, so the score is not stored and no tokens are paid; the model stores and pays for any integer.
- `Models.ValidCatalog` assumes the dinosaur validators (length, weight, discovery year) because the seeded rows meet them. No operation relies on them.
- Validators are not run when records are created. So a game score is any integer, and a negative one earns 1 token. The only guard on balances is the explicit clamp.
- The page controllers in `encyclopedia/views.py` are not modelled: routing, authentication, messages and rendering. This includes their search > diet > period filter dispatch and the 50-token welcome credit, which is a plain call of `UpdateUserTokens(u, 50)`.
- Seeding, admin registration and URL routing (`seed.py`, `admin.py`, `urls.py`) are configuration and fixtures with no logic.
- Concurrency: calls are sequential. The race between get-or-create and the following update, which can pay a bonus twice under concurrent requests, is out of scope.
- `CollectDinosaur` stores the collected item in one step. The source first creates an uncollected row and then updates it in the same call; with sequential calls the final row is the same.
- `CollectDinosaur` takes a catalog dinosaur. The source receives an existing row, so a missing dinosaur is a not-found response in the controller, not a service case.
- `encyclopedia/models.py` declares no `start_mya > end_mya` constraint, so the model does not assume one.
