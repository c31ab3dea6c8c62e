# Jikan-Client: a verified model of the offline-first data layer

Jikan-Client is an Android app that shows the Jikan API's anime catalogue. It caches what it
fetches in two Room tables, so the catalogue and the detail pages still work offline. This
project models the app's core in Dafny and proves what each part promises.

- **The two tables and their DAOs** (`AnimeTable.AnimeDao`, `CharacterTable.CharacterDao`).
  Each table is a map from primary key to row, held in a class whose methods change it in place.
  The model covers:
  - `INSERT OR REPLACE` as an upsert;
  - a scan in primary-key order;
  - `ORDER BY rank ASC, popularity ASC` with SQLite's NULLs first, as a stable insertion sort;
  - `ORDER BY role, characterName` under the BINARY collation;
  - `LIMIT`/`OFFSET` paging;
  - the strict `lastUpdated < cutoff` staleness queries;
  - `LIKE '%q%'` search;
  - the targeted updates and deletes.
- **The mappers** (`AnimeMapper`, `CharacterMapper`). They flatten the nested image and trailer
  structure into nullable columns and rebuild it. They store the genre, studio, producer and
  voice-actor lists as Gson documents. Gson is modelled at the level of the JSON tree (`Json`,
  `Gson`): members carry their `@SerializedName` keys and a null property is omitted. The model
  proves that reading a written document gives back the written list.
- **The repository** (`Repository`). Each operation is a pure decision function (`…Step`,
  `…Writes`) that takes three inputs:
  - whether the device is online;
  - the outcome of each request it may make (`Remote`: an exception, or an HTTP status with a body);
  - the cache.

  It returns the result, the rows to write and the requests made. The class `AnimeRepository`
  runs each operation against the two DAOs, and its method contracts tie the new table
  contents to those functions. The staleness sweeps are `for` loops over the stale rows.
- **The view models.**
  - `AnimeListViewModel` is the paging accumulator, with its 300-item cap and single-flight
    guard. Each launched coroutine body is split into the part that runs at once and the part
    that runs with the repository's result.
  - `AnimeDetailViewModel` folds the emissions of `getAnimeById`.
  - `ImageFlags` holds the five switches.
- **Two screens' decisions** (`DetailScreen`, `ListScreen`):
  - which view each screen shows;
  - when the detail screen asks for data;
  - when the list screen asks for the next page;
  - when it shows the end-of-list marker and the pagination-error card;
  - `formatNumber`.

Nothing here talks to a network, a clock or a database. These become parameters:
- the network state, as `isOnline`;
- the outcome of each request, as `Remote` values (for the sweeps, a function from the request's
  position to its outcome);
- the current time, as `now`;
- each result the repository hands a view model.

Some behaviour of `getAnimeById` and of the flows is easy to misread. The model does what the
code does:
- A non-positive anime id is rejected only in the online branch (`AnimeRepository.kt:115-117`).
  Offline, it is looked up in the cache like any other id (`Repository.AnimeByIdStep`).
- The summary endpoint is called only when the full request throws
  (`AnimeRepository.kt:120-124`). A non-2xx status from the full endpoint is final.
- When nothing is cached, the failure message depends on the status code: 400, 404 and 429 each
  have their own, and any other code gives "code - reason" (`AnimeRepository.kt:147-152`).
- Repeated emissions are not de-duplicated. Each `combine` emission is modelled as one call on
  one snapshot.

## Model

| member | source | states |
|---|---|---|
| Text.DecimalRoundTrip | app/src/main/java/com/dev/jikan/ui/screen/AnimeDetailScreen.kt:523 | Kotlin's `Int.toString()` is read back as the same integer, negatives included |
| Text.Decimal | app/src/main/java/com/dev/jikan/ui/screen/AnimeDetailScreen.kt:523 | Kotlin's `Int.toString()`: a leading "-" exactly for negative numbers, and a digit at the end |
| Text.EmptyPatternMatches | app/src/main/java/com/dev/jikan/data/local/dao/AnimeDao.kt:51 | `LIKE '%' \|\| '' \|\| '%'` matches every text |
| Text.ContainsIgnoringCase | app/src/main/java/com/dev/jikan/data/local/dao/AnimeDao.kt:51 | `text LIKE '%' \|\| q \|\| '%'`: a match needs the query to fit in the text, and every text matches itself |
| Text.StrLeTotal | app/src/main/java/com/dev/jikan/data/local/dao/CharacterDao.kt:10 | the BINARY collation compares every two strings |
| Text.StrLeTransitive | app/src/main/java/com/dev/jikan/data/local/dao/CharacterDao.kt:10 | the BINARY collation is transitive |
| Text.StrLeAntisymmetric | app/src/main/java/com/dev/jikan/data/local/dao/CharacterDao.kt:10 | two strings each ordered before the other are equal, so `ORDER BY` on a string is a total order |
| Sorting.KeysAscending | app/src/main/java/com/dev/jikan/data/local/dao/AnimeDao.kt:48-49 | the table's keys, each once, in strictly ascending order: the scan order of a query without `ORDER BY` |
| Sorting.SortBy | app/src/main/java/com/dev/jikan/data/local/dao/AnimeDao.kt:15 | `ORDER BY` gives a permutation of its input that is sorted by the key |
| Sorting.Filter | app/src/main/java/com/dev/jikan/data/local/dao/AnimeDao.kt:48 | `WHERE` keeps exactly the elements that satisfy the condition, and no more of each than the input has |
| Sorting.FilterKeepsOrder | app/src/main/java/com/dev/jikan/data/local/dao/AnimeDao.kt:51 | filtering a sorted sequence leaves it sorted |
| Sorting.FilterAll | app/src/main/java/com/dev/jikan/data/local/dao/AnimeDao.kt:51 | a condition every element meets filters out nothing |
| Sorting.FilterKeepsUniqueKeys | app/src/main/java/com/dev/jikan/data/local/dao/AnimeDao.kt:48 | `WHERE` never lists a row twice: unique keys stay unique |
| Sorting.SortByKeepsUniqueKeys | app/src/main/java/com/dev/jikan/data/local/dao/AnimeDao.kt:15 | `ORDER BY` never lists a row twice: unique keys stay unique |
| Tables.Scan | app/src/main/java/com/dev/jikan/data/local/dao/AnimeDao.kt:48-49 | every row of the table exactly once, in ascending primary-key order |
| Tables.Upsert | app/src/main/java/com/dev/jikan/data/local/dao/AnimeDao.kt:30-31 | `REPLACE` puts the row under its key and leaves every other key's row as it was |
| Tables.UpsertAllLastWins | app/src/main/java/com/dev/jikan/data/local/dao/AnimeDao.kt:33-34 | after a list insert each key holds the last row of the list with that key; keys the list lacks keep their rows |
| Tables.UpsertAllKeys | app/src/main/java/com/dev/jikan/data/local/dao/AnimeDao.kt:33-34 | a list insert leaves exactly the old keys plus the list's keys |
| Tables.UpsertAllPreserves | app/src/main/java/com/dev/jikan/data/local/dao/AnimeDao.kt:33-34 | a property of every old row and every inserted row holds of every row afterwards |
| Tables.UpsertAllAppend | app/src/main/java/com/dev/jikan/data/repository/AnimeRepository.kt:202-215 | inserting two lists in turn is inserting their concatenation, which is what lets a loop of inserts be one list insert |
| Json.ReadOptionalStringOf | app/src/main/java/com/dev/jikan/data/model/Anime.kt:43-50 | a nullable string written the Gson way, omitted when null, reads back unchanged |
| Gson.ImageUrlsRoundTrip | app/src/main/java/com/dev/jikan/data/model/Anime.kt:43-50 | the three image URLs, written under `image_url`, `small_image_url` and `large_image_url`, read back unchanged |
| Gson.ImagesRoundTrip | app/src/main/java/com/dev/jikan/data/model/Character.kt:51-54 | an images object with nullable `jpg` and `webp` reads back unchanged |
| Gson.PersonRoundTrip | app/src/main/java/com/dev/jikan/data/model/Character.kt:43-49 | a voice actor's person (`mal_id`, url, nullable images, name) reads back unchanged |
| Gson.VoiceActorRoundTrip | app/src/main/java/com/dev/jikan/data/model/Character.kt:38-41 | a voice actor reads back unchanged |
| Gson.ResourceRoundTrip | app/src/main/java/com/dev/jikan/data/model/Anime.kt:74-80 | a genre, studio or producer, whose `type` key holds its kind, reads back unchanged |
| Gson.EncodeResources | app/src/main/java/com/dev/jikan/data/mapper/AnimeMapper.kt:46-48 | `gson.toJson(list)` is an array with one object per element, in order |
| Gson.ResourcesRoundTrip | app/src/main/java/com/dev/jikan/data/mapper/AnimeMapper.kt:102-110 | `fromJson(toJson(list), Array<T>).toList()` gives back the list |
| Gson.EncodeVoiceActors | app/src/main/java/com/dev/jikan/data/mapper/CharacterMapper.kt:26 | the voice actors are written as an array with one object per actor, in order |
| Gson.VoiceActorsRoundTrip | app/src/main/java/com/dev/jikan/data/mapper/CharacterMapper.kt:51-53 | the voice-actor document reads back as the same list |
| Entity.JpgColumns | app/src/main/java/com/dev/jikan/data/mapper/AnimeMapper.kt:36-38 | `images?.jpg?.x`: the JPEG URLs, all null when `images` or `jpg` is null |
| Entity.ImagesFromColumns | app/src/main/java/com/dev/jikan/data/mapper/AnimeMapper.kt:80-89 | images are rebuilt iff some URL column is non-null, as JPEG with `webp = null` |
| Entity.ColumnsOfRebuiltImages | app/src/main/java/com/dev/jikan/data/mapper/AnimeMapper.kt:80-89 | flattening rebuilt images gives back the three columns |
| AnimeMapper.EncodeList | app/src/main/java/com/dev/jikan/data/mapper/AnimeMapper.kt:46-48 | a null list gives a null column; a list gives a document that reads back as that list |
| AnimeMapper.DecodeList | app/src/main/java/com/dev/jikan/data/mapper/AnimeMapper.kt:102-110 | a null column gives a null list, and a document gives a list |
| AnimeMapper.TrailerColumns | app/src/main/java/com/dev/jikan/data/mapper/AnimeMapper.kt:41-43 | `trailer?.youtubeId`, `?.url`, `?.embedUrl`, all null for a null trailer |
| AnimeMapper.ToEntity | app/src/main/java/com/dev/jikan/data/mapper/AnimeMapper.kt:11-53 | the id and the twenty scalar fields are copied, only the JPEG URLs and the trailer's three links are kept, the lists are null iff the model's are, the row is stamped `now` and marked offline-available, and its documents are readable |
| AnimeMapper.ToModel | app/src/main/java/com/dev/jikan/data/mapper/AnimeMapper.kt:55-112 | id and scalars copied; `images` present iff a URL column is set (JPEG, `webp = null`); `trailer` present iff a trailer column is set (`images = null`); each list null iff its column is |
| AnimeMapper.ModelOfEntity | app/src/main/java/com/dev/jikan/data/mapper/AnimeMapper.kt:11-112 | reading a stored anime back gives the anime minus what the columns cannot hold (WebP images, trailer images, all-null structures) |
| AnimeMapper.FlattenExact | app/src/main/java/com/dev/jikan/data/mapper/AnimeMapper.kt:11-112 | the cache keeps an anime unchanged iff it is lossless |
| AnimeMapper.StoredAnimeIsLossless | app/src/main/java/com/dev/jikan/data/mapper/AnimeMapper.kt:11-112 | what comes out of the cache survives another trip unchanged |
| AnimeMapper.EntityOfModel | app/src/main/java/com/dev/jikan/data/mapper/AnimeMapper.kt:11-112 | rewriting a row read from the cache gives the same row, apart from `lastUpdated` and `isOfflineAvailable` |
| AnimeMapper.RewrittenList | app/src/main/java/com/dev/jikan/data/mapper/AnimeMapper.kt:46-48 | a document Gson wrote, read and written again, is the same document |
| AnimeMapper.ToEntityList | app/src/main/java/com/dev/jikan/data/mapper/AnimeMapper.kt:114-116 | one row per anime, same length and order, every row readable and stamped `now` |
| AnimeMapper.ToModelList | app/src/main/java/com/dev/jikan/data/mapper/AnimeMapper.kt:118-120 | one anime per row, same length and order |
| AnimeMapper.ToModelListMembers | app/src/main/java/com/dev/jikan/data/mapper/AnimeMapper.kt:118-120 | the mapped list holds exactly the anime of the listed rows |
| CharacterMapper.ToEntity | app/src/main/java/com/dev/jikan/data/mapper/CharacterMapper.kt:12-31 | keyed by the character id and tagged with the given anime; name, url and role copied; JPEG URLs kept; the voice-actor column is never null and reads back as the list; stamped `now` |
| CharacterMapper.ToModel | app/src/main/java/com/dev/jikan/data/mapper/CharacterMapper.kt:33-55 | id, name, url and role copied; images present iff a URL column is set (JPEG, `webp = null`); a null voice-actor column gives an empty list |
| CharacterMapper.ModelOfEntity | app/src/main/java/com/dev/jikan/data/mapper/CharacterMapper.kt:12-55 | reading a stored character back keeps id, name, url, role and voice actors and reduces the images to JPEG |
| CharacterMapper.ToEntityList | app/src/main/java/com/dev/jikan/data/mapper/CharacterMapper.kt:57-59 | one row per character, same length and order, every row tagged with the same anime |
| CharacterMapper.ToModelList | app/src/main/java/com/dev/jikan/data/mapper/CharacterMapper.kt:61-63 | one character per row, same length and order |
| AnimeTable.CatalogueOrderIsTotal | app/src/main/java/com/dev/jikan/data/local/dao/AnimeDao.kt:15 | `rank ASC, popularity ASC` with NULLs first is a total preorder |
| AnimeTable.CatalogueLe | app/src/main/java/com/dev/jikan/data/local/dao/AnimeDao.kt:15 | `ORDER BY rank ASC, popularity ASC` on two rows: rank decides, popularity breaks ties, and NULL comes first in each (CatalogueOrderIsTotal proves it a total preorder) |
| AnimeTable.Catalogue | app/src/main/java/com/dev/jikan/data/local/dao/AnimeDao.kt:15-16 | the catalogue has one entry per row |
| AnimeTable.CatalogueMembers | app/src/main/java/com/dev/jikan/data/local/dao/AnimeDao.kt:15-16 | the catalogue lists exactly the stored rows |
| AnimeTable.CatalogueIsSortedPermutation | app/src/main/java/com/dev/jikan/data/local/dao/AnimeDao.kt:15-16 | the catalogue is a permutation of the rows, sorted by rank and then popularity, and no two of its rows share a `malId` |
| AnimeTable.Window | app/src/main/java/com/dev/jikan/data/local/dao/AnimeDao.kt:24-25 | `LIMIT`/`OFFSET`: empty past the end, otherwise `min(limit, rest)` elements (all the rest for a negative limit) read from the offset |
| AnimeTable.WindowIsPage | app/src/main/java/com/dev/jikan/data/local/dao/AnimeDao.kt:24-25 | a window is at most `limit` long, empty from an offset past the end, and reads the sequence from the offset |
| AnimeTable.WindowMembers | app/src/main/java/com/dev/jikan/data/local/dao/AnimeDao.kt:24-25 | a page holds only elements of what it is cut from |
| AnimeTable.PagesArePrefix | app/src/main/java/com/dev/jikan/data/local/dao/AnimeDao.kt:24-25 | pages 1 to n of a fixed size, concatenated, are the first `n * size` elements: no gaps, no overlaps |
| AnimeTable.Stale | app/src/main/java/com/dev/jikan/data/local/dao/AnimeDao.kt:48-49 | exactly the rows with `lastUpdated < cutoff` (strict), in primary-key order |
| AnimeTable.Search | app/src/main/java/com/dev/jikan/data/local/dao/AnimeDao.kt:51-52 | exactly the rows whose title or English title (never the Japanese one) contains the query, in catalogue order, each once (no two share a `malId`) |
| AnimeTable.TitleMatches | app/src/main/java/com/dev/jikan/data/local/dao/AnimeDao.kt:51 | the empty query matches every row; with a null English title only the title decides, because `NULL LIKE` is never true |
| AnimeTable.SearchEmptyIsCatalogue | app/src/main/java/com/dev/jikan/data/local/dao/AnimeDao.kt:51-52 | searching for "" returns the whole catalogue |
| AnimeTable.AnimeDao.constructor | app/src/main/java/com/dev/jikan/data/local/dao/AnimeDao.kt:12-13 | a new table is empty |
| AnimeTable.AnimeDao.GetAllAnime | app/src/main/java/com/dev/jikan/data/local/dao/AnimeDao.kt:15-16 | every row exactly once (as many as the table holds, no two sharing a `malId`), sorted by rank and then popularity |
| AnimeTable.AnimeDao.GetAnimeById | app/src/main/java/com/dev/jikan/data/local/dao/AnimeDao.kt:18-22 | the row with that key, or null iff there is none |
| AnimeTable.AnimeDao.GetAnimePage | app/src/main/java/com/dev/jikan/data/local/dao/AnimeDao.kt:24-25 | a page of `getAllAnime`: at most `limit` rows, empty when `offset >= count`, read from `offset` |
| AnimeTable.AnimeDao.GetAnimeCount | app/src/main/java/com/dev/jikan/data/local/dao/AnimeDao.kt:27-28 | the count is the length of `getAllAnime` |
| AnimeTable.AnimeDao.GetStaleAnime | app/src/main/java/com/dev/jikan/data/local/dao/AnimeDao.kt:48-49 | exactly the rows with `lastUpdated < cutoffTime`, in strictly ascending `malId` order, so each once |
| AnimeTable.AnimeDao.SearchAnime | app/src/main/java/com/dev/jikan/data/local/dao/AnimeDao.kt:51-52 | exactly the rows whose title or English title matches, in catalogue order, each once (no two share a `malId`) |
| AnimeTable.AnimeDao.InsertAnime | app/src/main/java/com/dev/jikan/data/local/dao/AnimeDao.kt:30-31 | afterwards `getAnimeById(malId)` is the inserted row and every other lookup is unchanged |
| AnimeTable.AnimeDao.InsertAnimeList | app/src/main/java/com/dev/jikan/data/local/dao/AnimeDao.kt:33-34 | the table is the old one with the rows inserted one after another (the last of a key wins) |
| AnimeTable.AnimeDao.UpdateAnime | app/src/main/java/com/dev/jikan/data/local/dao/AnimeDao.kt:36-37 | replaces the row with that key; no effect when there is none |
| AnimeTable.AnimeDao.DeleteAnime | app/src/main/java/com/dev/jikan/data/local/dao/AnimeDao.kt:39-40 | removes the row with that key and nothing else |
| AnimeTable.AnimeDao.DeleteAllAnime | app/src/main/java/com/dev/jikan/data/local/dao/AnimeDao.kt:42-43 | the table is empty and `getAnimeCount` is 0 |
| AnimeTable.AnimeDao.UpdateLastUpdated | app/src/main/java/com/dev/jikan/data/local/dao/AnimeDao.kt:45-46 | only that row's `lastUpdated` changes; no effect for an absent key |
| CharacterTable.CharacterOrderIsTotal | app/src/main/java/com/dev/jikan/data/local/dao/CharacterDao.kt:10 | `role ASC, characterName ASC` is a total preorder |
| CharacterTable.ByAnime | app/src/main/java/com/dev/jikan/data/local/dao/CharacterDao.kt:10-11 | exactly the rows of that anime, by role and then by name, each once (no two share a `characterMalId`) |
| CharacterTable.Stale | app/src/main/java/com/dev/jikan/data/local/dao/CharacterDao.kt:40-41 | exactly the rows with `lastUpdated < cutoff`, in primary-key order |
| CharacterTable.Search | app/src/main/java/com/dev/jikan/data/local/dao/CharacterDao.kt:43-44 | exactly the rows whose name contains the query, by role and then by name, each once (no two share a `characterMalId`) |
| CharacterTable.WithoutAnime | app/src/main/java/com/dev/jikan/data/local/dao/CharacterDao.kt:31-32 | the rows of other anime stay, unchanged; the anime's rows go |
| CharacterTable.WithoutAnimeEmptiesIt | app/src/main/java/com/dev/jikan/data/local/dao/CharacterDao.kt:31-32 | after the delete, listing that anime's characters finds none |
| CharacterTable.ReinsertMovesCharacter | app/src/main/java/com/dev/jikan/data/local/dao/CharacterDao.kt:19-20 | the key is the character id alone: inserting it under another anime removes it from the old anime's list and shows the new row in the new one's |
| CharacterTable.CharacterDao.constructor | app/src/main/java/com/dev/jikan/data/local/dao/CharacterDao.kt:7-8 | a new table is empty |
| CharacterTable.CharacterDao.GetCharactersByAnimeId | app/src/main/java/com/dev/jikan/data/local/dao/CharacterDao.kt:10-11 | exactly the anime's rows, by role and then by name, each once (no two share a `characterMalId`) |
| CharacterTable.CharacterDao.GetCharacterById | app/src/main/java/com/dev/jikan/data/local/dao/CharacterDao.kt:13-17 | the row with that id, or null iff there is none |
| CharacterTable.CharacterDao.GetStaleCharacters | app/src/main/java/com/dev/jikan/data/local/dao/CharacterDao.kt:40-41 | exactly the rows with `lastUpdated < cutoffTime`, in strictly ascending `characterMalId` order, so each once |
| CharacterTable.CharacterDao.SearchCharacters | app/src/main/java/com/dev/jikan/data/local/dao/CharacterDao.kt:43-44 | exactly the rows whose name matches, by role and then by name, each once (no two share a `characterMalId`) |
| CharacterTable.CharacterDao.InsertCharacter | app/src/main/java/com/dev/jikan/data/local/dao/CharacterDao.kt:19-20 | replaces the row with the same character id, whatever its anime |
| CharacterTable.CharacterDao.InsertCharacterList | app/src/main/java/com/dev/jikan/data/local/dao/CharacterDao.kt:22-23 | the rows are inserted one after another; the last of an id wins |
| CharacterTable.CharacterDao.UpdateCharacter | app/src/main/java/com/dev/jikan/data/local/dao/CharacterDao.kt:25-26 | replaces the row with that id; no effect when there is none |
| CharacterTable.CharacterDao.DeleteCharacter | app/src/main/java/com/dev/jikan/data/local/dao/CharacterDao.kt:28-29 | removes the row with that id and nothing else |
| CharacterTable.CharacterDao.DeleteCharactersByAnimeId | app/src/main/java/com/dev/jikan/data/local/dao/CharacterDao.kt:31-32 | removes exactly that anime's rows, leaves the others untouched, and listing the anime then finds none |
| CharacterTable.CharacterDao.DeleteAllCharacters | app/src/main/java/com/dev/jikan/data/local/dao/CharacterDao.kt:34-35 | the table is empty |
| CharacterTable.CharacterDao.UpdateLastUpdated | app/src/main/java/com/dev/jikan/data/local/dao/CharacterDao.kt:37-38 | only that row's `lastUpdated` changes; no effect for an absent id |
| Repository.MessageText | app/src/main/java/com/dev/jikan/data/repository/AnimeRepository.kt:161 | a non-null exception message is rendered as itself |
| Repository.PageOffset | app/src/main/java/com/dev/jikan/data/repository/AnimeRepository.kt:85 | `(page - 1) * 25` in `Int` arithmetic, which is exact for every page from 1 up to 2^31 / 25 |
| Repository.TopAnimeList | app/src/main/java/com/dev/jikan/data/repository/AnimeRepository.kt:37 | `response.body()?.data ?: emptyList()`: the fetched list, empty for a null body |
| Repository.TopAnimeStep | app/src/main/java/com/dev/jikan/data/repository/AnimeRepository.kt:27-61 | `getTopAnime` never fails: online with a 2xx response it writes and returns the fetched list (empty for a null body); otherwise it returns the cached catalogue and writes nothing; one request iff online |
| Repository.OfflinePagination | app/src/main/java/com/dev/jikan/data/repository/AnimeRepository.kt:86-98 | `currentPage = lastVisiblePage = page`, `hasNextPage` iff 25 rows, `count = total` = rows, `perPage = 25` |
| Repository.CachedPage | app/src/main/java/com/dev/jikan/data/repository/AnimeRepository.kt:85 | the offline page is `getAnimePage(25, (page - 1) * 25)` of the catalogue: at most 25 readable rows |
| Repository.OfflinePagesTile | app/src/main/java/com/dev/jikan/data/repository/AnimeRepository.kt:83-99 | offline pages 1 to n, concatenated, are the first 25n entries of the cached catalogue |
| Repository.OfflinePage | app/src/main/java/com/dev/jikan/data/repository/AnimeRepository.kt:84-99 | the offline response is the mapped cached page with the made-up pagination |
| Repository.TopAnimePageStep | app/src/main/java/com/dev/jikan/data/repository/AnimeRepository.kt:63-104 | online: a 2xx body is written and returned unchanged; a null body fails with "Empty response body"; a non-2xx fails with the page and code; an exception fails with its message; none of these falls back to the cache or writes. Offline: the cached page, no request, no write |
| Repository.StatusMessage | app/src/main/java/com/dev/jikan/data/repository/AnimeRepository.kt:147-152 | 400, 404 and 429 have fixed messages; any other code gives "code - reason" |
| Repository.DetailResponse | app/src/main/java/com/dev/jikan/data/repository/AnimeRepository.kt:120-124 | the response `getAnimeById` goes on with: the full endpoint's, or the summary endpoint's only when the full call threw |
| Repository.DetailData | app/src/main/java/com/dev/jikan/data/repository/AnimeRepository.kt:126-128 | a detail response carries data only when it is 2xx |
| Repository.CachedOr | app/src/main/java/com/dev/jikan/data/repository/AnimeRepository.kt:136-140 | the cached row as an anime when there is one, otherwise the given failure |
| Repository.AnimeByIdStep | app/src/main/java/com/dev/jikan/data/repository/AnimeRepository.kt:106-173 | offline: the cache or "Anime not found in offline cache", any id. Online: a non-positive id fails without requests; otherwise the full endpoint is asked, and the summary one only if it threw. Data is written and returned. Without data the cached row is served, else the matching message. Only a success with data writes |
| Repository.CharactersStep | app/src/main/java/com/dev/jikan/data/repository/AnimeRepository.kt:231-265 | `getAnimeCharacters` never fails: a 2xx list is written tagged with the anime and returned; otherwise the cached characters are returned |
| Repository.CharacterList | app/src/main/java/com/dev/jikan/data/repository/AnimeRepository.kt:241 | `response.body()?.data ?: emptyList()` for characters |
| Repository.RefreshAnimeListWrites | app/src/main/java/com/dev/jikan/data/repository/AnimeRepository.kt:175-193 | the fetched list is written only online on a 2xx response |
| Repository.RefreshCharactersWrites | app/src/main/java/com/dev/jikan/data/repository/AnimeRepository.kt:267-285 | the fetched characters are written only online on a 2xx response, each tagged with the anime |
| Repository.SyncAnimeWrite | app/src/main/java/com/dev/jikan/data/repository/AnimeRepository.kt:203-211 | one stale row is rewritten iff its response is 2xx with data |
| Repository.SyncAnimeRequests | app/src/main/java/com/dev/jikan/data/repository/AnimeRepository.kt:202-204 | one summary request per stale row, in order |
| Repository.SyncAnimeWritesFromResponses | app/src/main/java/com/dev/jikan/data/repository/AnimeRepository.kt:195-222 | the sweep writes at most one row per stale row, each the stored form of data some 2xx response carried |
| Repository.SyncAnimeWritesNothingOnFailure | app/src/main/java/com/dev/jikan/data/repository/AnimeRepository.kt:202-214 | when no request brings data, the sweep writes nothing |
| Repository.SyncAnimeWrites | app/src/main/java/com/dev/jikan/data/repository/AnimeRepository.kt:202-217 | the rows the sweep writes, in request order: at most one per stale row, each stamped `now` and readable |
| Repository.SyncAnimeLastWrite | app/src/main/java/com/dev/jikan/data/repository/AnimeRepository.kt:202-217 | the row a 2xx response with data writes is the sweep's last write under its key unless a later response brings the same id, whatever the other requests got |
| Repository.SyncAnimeSuccessIsKept | app/src/main/java/com/dev/jikan/data/repository/AnimeRepository.kt:199-217 | after the sweep the table holds the anime a 2xx response brought, stamped `now`, unless a later response brought the same id: one row's failure does not stop the others |
| Repository.SyncCharacterWrite | app/src/main/java/com/dev/jikan/data/repository/AnimeRepository.kt:295-301 | one stale row's anime gets its fetched characters written on a 2xx response, and nothing otherwise |
| Repository.SyncCharacterRequests | app/src/main/java/com/dev/jikan/data/repository/AnimeRepository.kt:294-296 | one character request per stale character row, for that row's anime, with no de-duplication |
| Repository.SyncCharacterWritesTagged | app/src/main/java/com/dev/jikan/data/repository/AnimeRepository.kt:287-312 | every character the sweep writes belongs to the anime of some stale row |
| Repository.SyncCharacterWrites | app/src/main/java/com/dev/jikan/data/repository/AnimeRepository.kt:294-305 | the rows the character sweep writes, in request order, each stamped `now` and readable |
| Repository.SyncCharacterWritesPrefix | app/src/main/java/com/dev/jikan/data/repository/AnimeRepository.kt:294-305 | the rows written for the first stale rows begin the rows the whole sweep writes: later requests only append |
| Repository.SyncCharacterSuccessIsWritten | app/src/main/java/com/dev/jikan/data/repository/AnimeRepository.kt:294-305 | a 2xx response's characters are all written, together and in order, right after the rows of the requests before it, whatever the other requests got |
| Repository.SearchResultsAreStoredAnime | app/src/main/java/com/dev/jikan/data/repository/AnimeRepository.kt:224-229 | a search returns exactly the cached anime whose title or English title matches, each once (distinct `malId`s), in catalogue order: rank, then popularity, nulls first |
| Repository.AnimeRepository.constructor | app/src/main/java/com/dev/jikan/data/repository/AnimeRepository.kt:20-25 | the repository works over the given DAOs |
| Repository.AnimeRepository.WriteAnime | app/src/main/java/com/dev/jikan/data/repository/AnimeRepository.kt:42 | `insertAnimeList`: the table becomes the rows upserted in order, and every cached row stays readable |
| Repository.AnimeRepository.WriteCharacters | app/src/main/java/com/dev/jikan/data/repository/AnimeRepository.kt:246 | `insertCharacterList`: the table becomes the rows upserted in order, and every cached row stays readable |
| Repository.AnimeRepository.CachedCatalogue | app/src/main/java/com/dev/jikan/data/repository/AnimeRepository.kt:30 | every cached catalogue row can be mapped back |
| Repository.AnimeRepository.GetTopAnime | app/src/main/java/com/dev/jikan/data/repository/AnimeRepository.kt:27-61 | result, requests and new table are those `TopAnimeStep` decides on the cached catalogue |
| Repository.AnimeRepository.GetTopAnimePage | app/src/main/java/com/dev/jikan/data/repository/AnimeRepository.kt:63-104 | result, requests and new table are those `TopAnimePageStep` decides |
| Repository.AnimeRepository.GetAnimeById | app/src/main/java/com/dev/jikan/data/repository/AnimeRepository.kt:106-173 | result, requests and new table are those `AnimeByIdStep` decides on the cached row |
| Repository.AnimeRepository.RefreshAnimeList | app/src/main/java/com/dev/jikan/data/repository/AnimeRepository.kt:175-193 | one request online; the table gains `RefreshAnimeListWrites` |
| Repository.AnimeRepository.SyncAnime | app/src/main/java/com/dev/jikan/data/repository/AnimeRepository.kt:203-214 | one sweep iteration writes `SyncAnimeWrite`; a failure only skips its own row |
| Repository.AnimeRepository.SyncOfflineData | app/src/main/java/com/dev/jikan/data/repository/AnimeRepository.kt:195-222 | offline nothing happens; online the rows with `lastUpdated < now - 3600000` are each refetched once and the table gains the sweep's writes |
| Repository.AnimeRepository.SyncAnimeRows | app/src/main/java/com/dev/jikan/data/repository/AnimeRepository.kt:202-215 | the loop makes `SyncAnimeRequests` and writes `SyncAnimeWrites`, whatever each request's outcome |
| Repository.AnimeRepository.SearchAnime | app/src/main/java/com/dev/jikan/data/repository/AnimeRepository.kt:224-229 | always a success, holding exactly the cached anime whose title or English title matches, each once (distinct `malId`s), in catalogue order |
| Repository.AnimeRepository.GetAnimeCharacters | app/src/main/java/com/dev/jikan/data/repository/AnimeRepository.kt:231-265 | result, requests and new table are those `CharactersStep` decides on the anime's cached characters |
| Repository.AnimeRepository.RefreshAnimeCharacters | app/src/main/java/com/dev/jikan/data/repository/AnimeRepository.kt:267-285 | one request online; the table gains `RefreshCharactersWrites` |
| Repository.AnimeRepository.SyncCharacters | app/src/main/java/com/dev/jikan/data/repository/AnimeRepository.kt:295-304 | one sweep iteration writes `SyncCharacterWrite` |
| Repository.AnimeRepository.SyncCharacterData | app/src/main/java/com/dev/jikan/data/repository/AnimeRepository.kt:287-312 | offline nothing happens; online one request per stale character row and the table gains the sweep's writes |
| Repository.AnimeRepository.SyncCharacterRows | app/src/main/java/com/dev/jikan/data/repository/AnimeRepository.kt:294-305 | the loop makes `SyncCharacterRequests` and writes `SyncCharacterWrites`, whatever each outcome |
| ListViewModel.Take | app/src/main/java/com/dev/jikan/ui/viewmodel/AnimeListViewModel.kt:81 | `take(n)` is a prefix of length `min(size, n)` |
| ListViewModel.BeginLoad | app/src/main/java/com/dev/jikan/ui/viewmodel/AnimeListViewModel.kt:36 | loading shown and error cleared, nothing else changes |
| ListViewModel.FinishLoad | app/src/main/java/com/dev/jikan/ui/viewmodel/AnimeListViewModel.kt:38-58 | a success replaces the list with page 1 and takes `currentPage`/`hasNextPage` from its pagination; a failure keeps list and paging and shows the message or "Unknown error occurred"; consistency is kept |
| ListViewModel.StartLoadMore | app/src/main/java/com/dev/jikan/ui/viewmodel/AnimeListViewModel.kt:63-71 | no-op iff no next page, already loading more, or 300 items; otherwise asks for `currentPage + 1`, sets `isLoadingMore` and clears the pagination error, after which a second load-more is refused |
| ListViewModel.FinishLoadMore | app/src/main/java/com/dev/jikan/ui/viewmodel/AnimeListViewModel.kt:72-96 | success: the list becomes `(old + page).take(300)` (never over 300, old list a prefix), paging follows the response, the UI offers a next page iff the response has one and the list is under 300. Failure: list and paging kept, pagination error set |
| ListViewModel.ErrorCleared | app/src/main/java/com/dev/jikan/ui/viewmodel/AnimeListViewModel.kt:113-115 | only `error` changes |
| ListViewModel.PaginationErrorCleared | app/src/main/java/com/dev/jikan/ui/viewmodel/AnimeListViewModel.kt:117-119 | only `paginationError` changes |
| ListViewModel.LoadMoreRoundsOnlyAppend | app/src/main/java/com/dev/jikan/ui/viewmodel/AnimeListViewModel.kt:63-99 | over any run of load-more attempts and results the list only grows at its end, stays within 300, and the state stays consistent |
| ListViewModel.CapEndsPaging | app/src/main/java/com/dev/jikan/ui/viewmodel/AnimeListViewModel.kt:64-66 | at 300 items no page is ever requested again and the state stays as it is |
| ListViewModel.MayLoadMore | app/src/main/java/com/dev/jikan/ui/viewmodel/AnimeListViewModel.kt:64-66 | `loadMoreAnime` goes on past its guard; from a consistent state, exactly when the UI offers a next page, nothing is loading more and the list is below 300 |
| ListViewModel.AnimeListViewModel.constructor | app/src/main/java/com/dev/jikan/ui/viewmodel/AnimeListViewModel.kt:21-36 | the fields' defaults, then `init`'s `loadAnimeList` up to its repository call |
| ListViewModel.AnimeListViewModel.BeginLoadAnimeList | app/src/main/java/com/dev/jikan/ui/viewmodel/AnimeListViewModel.kt:34-36 | the new state is `BeginLoad` of the old, consistency kept |
| ListViewModel.AnimeListViewModel.FinishLoadAnimeList | app/src/main/java/com/dev/jikan/ui/viewmodel/AnimeListViewModel.kt:38-59 | the new state is `FinishLoad` of the old state and the result |
| ListViewModel.AnimeListViewModel.LoadMoreAnime | app/src/main/java/com/dev/jikan/ui/viewmodel/AnimeListViewModel.kt:63-71 | new state and requested page are `StartLoadMore` of the old state |
| ListViewModel.AnimeListViewModel.FinishLoadMoreAnime | app/src/main/java/com/dev/jikan/ui/viewmodel/AnimeListViewModel.kt:74-97 | the new state is `FinishLoadMore` of the old state and the result |
| ListViewModel.AnimeListViewModel.RetryLoadMore | app/src/main/java/com/dev/jikan/ui/viewmodel/AnimeListViewModel.kt:101-103 | the same as `loadMoreAnime` |
| ListViewModel.AnimeListViewModel.ClearError | app/src/main/java/com/dev/jikan/ui/viewmodel/AnimeListViewModel.kt:113-115 | the new state is `ErrorCleared` of the old |
| ListViewModel.AnimeListViewModel.ClearPaginationError | app/src/main/java/com/dev/jikan/ui/viewmodel/AnimeListViewModel.kt:117-119 | the new state is `PaginationErrorCleared` of the old |
| DetailViewModel.StartLoad | app/src/main/java/com/dev/jikan/ui/viewmodel/AnimeDetailViewModel.kt:21 | loading on, error cleared, the anime shown is kept |
| DetailViewModel.Apply | app/src/main/java/com/dev/jikan/ui/viewmodel/AnimeDetailViewModel.kt:24-38 | a success shows its anime and clears the error; a failure keeps the anime and shows the message or "Failed to load anime details"; loading ends either way |
| DetailViewModel.Collect | app/src/main/java/com/dev/jikan/ui/viewmodel/AnimeDetailViewModel.kt:23-39 | no emission changes nothing; after emissions loading is over and the error is the last emission's |
| DetailViewModel.LastSuccessIsLast | app/src/main/java/com/dev/jikan/ui/viewmodel/AnimeDetailViewModel.kt:23-39 | a success followed only by failures is the last success |
| DetailViewModel.NoSuccessNoLast | app/src/main/java/com/dev/jikan/ui/viewmodel/AnimeDetailViewModel.kt:23-39 | with only failures there is no last success |
| DetailViewModel.CollectShowsLastSuccess | app/src/main/java/com/dev/jikan/ui/viewmodel/AnimeDetailViewModel.kt:23-39 | after any emissions the anime shown is the last success's, or the one shown before when none succeeded |
| DetailViewModel.AnimeDetailViewModel.constructor | app/src/main/java/com/dev/jikan/ui/viewmodel/AnimeDetailViewModel.kt:16 | the state starts as the defaults |
| DetailViewModel.AnimeDetailViewModel.LoadAnimeDetails | app/src/main/java/com/dev/jikan/ui/viewmodel/AnimeDetailViewModel.kt:19-41 | the state after the collect loop is `Collect` of the started state over the emissions |
| DetailViewModel.AnimeDetailViewModel.ClearError | app/src/main/java/com/dev/jikan/ui/viewmodel/AnimeDetailViewModel.kt:43-45 | only `error` changes |
| ImageFlags.Toggled | app/src/main/java/com/dev/jikan/ui/components/ImageFlags.kt:42-44 | the global flag flips and the other four stay |
| ImageFlags.AllHidden | app/src/main/java/com/dev/jikan/ui/components/ImageFlags.kt:60-62 | the global flag is set and the other four stay |
| ImageFlags.ToggleTwiceRestores | app/src/main/java/com/dev/jikan/ui/components/ImageFlags.kt:42-44 | toggling twice restores every flag |
| ImageFlags.HideAllIsIdempotent | app/src/main/java/com/dev/jikan/ui/components/ImageFlags.kt:60-62 | hiding all images twice is hiding them once |
| ImageFlags.ImageFlags.constructor | app/src/main/java/com/dev/jikan/ui/components/ImageFlags.kt:11-17 | all five flags start false, so no kind of image is hidden |
| ImageFlags.ImageFlags.ToggleAllImages | app/src/main/java/com/dev/jikan/ui/components/ImageFlags.kt:22-44 | only the global flag flips; with it on every kind is hidden, with it off each kind follows its own flag |
| ImageFlags.ImageFlags.ShowAllImages | app/src/main/java/com/dev/jikan/ui/components/ImageFlags.kt:49-55 | all five flags false, nothing hidden |
| ImageFlags.ImageFlags.HideAllImages | app/src/main/java/com/dev/jikan/ui/components/ImageFlags.kt:60-62 | only the global flag changes, and every kind is hidden |
| DetailScreen.SelectDetailView | app/src/main/java/com/dev/jikan/ui/screen/AnimeDetailScreen.kt:74-93 | an id ≤ 0 shows the invalid-id error whatever the state; otherwise loading beats error beats content, each iff its condition and those before it hold |
| DetailScreen.ShouldRequestDetails | app/src/main/java/com/dev/jikan/ui/screen/AnimeDetailScreen.kt:46-51 | details are requested exactly when the screen does not show the invalid-id error, whatever the UI state |
| DetailScreen.ScreenAfterEmissions | app/src/main/java/com/dev/jikan/ui/screen/AnimeDetailScreen.kt:46-93 | for a valid id, once emissions arrived the screen shows the last emission's error, or the anime of that last success |
| DetailScreen.FormatNumber | app/src/main/java/com/dev/jikan/ui/screen/AnimeDetailScreen.kt:519-525 | ends in "M" iff ≥ 1,000,000, in "K" iff 1,000 ≤ n < 1,000,000; below 1,000 (negatives included) the plain decimal |
| DetailScreen.FormatNumberRoundsDown | app/src/main/java/com/dev/jikan/ui/screen/AnimeDetailScreen.kt:521-522 | the digits shown are the number of whole millions or thousands, rounded down |
| DetailScreen.FormatNumberTruncates | app/src/main/java/com/dev/jikan/ui/screen/AnimeDetailScreen.kt:521-522 | 1,999,999 gives "1M" and 999,999 gives "999K" |
| ListScreen.SelectListView | app/src/main/java/com/dev/jikan/ui/screen/AnimeListScreen.kt:95-119 | the loader iff loading with an empty list; the error iff not loading with an error and an empty list; the grid whenever the list is non-empty |
| ListScreen.TriggerAgreesWithGuard | app/src/main/java/com/dev/jikan/ui/screen/AnimeListScreen.kt:175-185 | the scroll trigger below the cap makes the view model load a page; whenever it would load one, scrolling to the last item fires the trigger |
| ListScreen.ShouldLoadMore | app/src/main/java/com/dev/jikan/ui/screen/AnimeListScreen.kt:175-185 | the scroll trigger fires only when a next page is offered and none is loading, never with no visible item, and at the last item exactly when a next page is offered and none is loading |
| ListScreen.ShowEndOfList | app/src/main/java/com/dev/jikan/ui/screen/AnimeListScreen.kt:230 | the end marker shows only inside the grid, and while it shows no scroll position asks for another page |
| ListScreen.ShowPaginationError | app/src/main/java/com/dev/jikan/ui/screen/AnimeListScreen.kt:219 | the card shows while the view model holds a pagination error (FailedLoadMoreShowsError states when that is) |
| ListScreen.CapShowsEndOfList | app/src/main/java/com/dev/jikan/ui/screen/AnimeListScreen.kt:230 | a page that fills the list to 300 shows the end-of-list marker and stops paging |
| ListScreen.FailedLoadMoreShowsError | app/src/main/java/com/dev/jikan/ui/screen/AnimeListScreen.kt:219 | a failed load-more shows the pagination-error card until it is dismissed or a retry starts |

## Left out

- Kotlin Flow and coroutines are not modelled.
  - Each `combine` emission is one call on one snapshot of network state and cache.
  - Re-emission caused by the repository's own writes is not modelled, and neither are
    interleaved `launch` bodies or cancellation.
  - The detail view model takes its emissions as a sequence.
  - `AnimeListScreen`'s `LaunchedEffect` reads the current values, not the ones it captured.
- Retrofit, HTTP and `NetworkMonitor` are not modelled. Their outcomes are parameters (`Remote`,
  `isOnline`), and `JikanApiService` and `NetworkMonitor` are not part of this model.
- `System.currentTimeMillis()` is the parameter `now`, read once per operation. The app reads the
  clock once for every entity it maps (`AnimeMapper.kt:50`, `CharacterMapper.kt:28`) and again
  for each sweep's cutoff (`AnimeRepository.kt:199`, `AnimeRepository.kt:291`). So the rows of one
  insert, or of one sweep, may differ in `lastUpdated` in the app, but never in the model, and a
  sweep's cutoff is `now - 1 hour` of the same `now` that stamps its rows. The debug `println`
  calls are omitted.
- Gson's text format is left out. Documents are JSON trees, and printing and parsing characters
  are not modelled.
- The Gson model rejects a document that lacks a non-null property; real Gson would leave that
  property null instead.
- AnimeMapper.ToModel: requires that the row's JSON columns can be read. Gson would throw on any
  other row. The repository keeps every cached row readable (its `Valid`), because it writes only
  `toEntity` output.
- CharacterMapper.ToModel: requires that the row's voice-actor column can be read. Gson would
  throw on any other row (`CharacterMapper.kt:51-53`). The repository keeps every cached
  character row readable (its `Valid`), because it writes only `toEntity` output.
- `score` (a `Double`) is kept as its 64-bit pattern; the app does no arithmetic on it.
- `Long` timestamps are unbounded integers; no overflow is modelled.
- SQLite `LIKE` is plain ASCII case-insensitive substring matching: the `%` and `_` wildcards
  inside a query and Unicode case folding are not modelled.
- When `ORDER BY` ties, SQL does not fix the order; the model keeps primary-key order. Room
  engine internals and database exceptions are not modelled.
- AnimeTable.AnimeDao.GetAnimePage: states what a page is (at most `limit`, empty past the end,
  read from the offset). SQLite's handling of a negative limit or offset is stated by
  `AnimeTable.Window`, whose result the function returns.
- AnimeTable.Catalogue: its own contract gives only the length. That it is a sorted permutation
  of the rows is stated by `AnimeTable.CatalogueIsSortedPermutation`.
- ImageFlags.ImageFlags.ShouldHideAnimePoster: this predicate and the other three `shouldHide*`
  predicates carry no contract of their own. The constructor and the three mutators state their
  values.
- `refreshAnimeList` of the list view model is not modelled: it only sets `isRefreshing` around
  the repository call, which is modelled as `Repository.AnimeRepository.RefreshAnimeList`.
- Compose rendering, navigation, `CharacterComponents`, `VideoPlayer`, `NetworkStatusIndicator`,
  theming and dependency injection are not part of this model. They have no logic beyond
  what is listed above.
