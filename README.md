# Blog post store, modelled in Dafny

This project models the core of a small blog server and its browser script.

The server keeps its posts in one module-level array. That array is seeded with
posts 1 and 2 and changed in place by three route handlers:

- `POST /posts` appends a post whose id is the array's length plus one.
- `PATCH /posts/:id` overwrites the truthy fields of the first post with that id.
- `DELETE /posts/:id` splices that post out.

The home page lists a copy of the array, sorted newest first.

The browser script trims the two form fields before it sends anything. The add
form refuses blank fields. The edit form sends only the fields that are not
blank. `escapeQuotes` rewrites `'` as `\'` and `"` as `&quot;` in the titles and
contents that the page writes into an inline `onclick` attribute. It leaves
backslashes as they are.

Files:

- `wrappers.dfy`: `Option`. It stands for a body field that may be absent and for a path id that may not be a number.
- `posts.dfy` (module `Posts`): the store's semantics on values.
  - `Post` and `Response`, the handler's answer in place of the HTTP status and body.
  - `HandleCreate`, `HandleUpdate`, `HandleDelete` and `Run`, which serves a sequence of requests.
  - The stable newest-first sort of the listing.
  - The lemmas relating these.
- `server.dfy` (module `Server`): the class `PostStore`.
  - Its field `posts: seq<Post>` is reassigned in place by `Create`, `Update` and `Delete`.
  - Each of those methods is proved to do exactly what the matching `Posts` function says.
  - `FindIndex` is the linear scan behind `find`/`findIndex`.
  - `List` is the sorted copy.
- `client.dfy` (module `Client`):
  - `String.prototype.trim`, over the ECMAScript white-space and line-terminator characters.
  - The add form's check and the edit form's partial body.
  - `escapeQuotes`, written as the two global replaces it performs, with a one-pass reference definition.

## Behaviour as written

The model follows `index.js`. It does not follow a stricter reading of what the
store should do:

- **Create does not trim.** It accepts any non-empty title and content, so a title of spaces is stored. Only the browser form trims (`Client.BlankTitleOnlyRefusedByForm`).
- **Update does not trim either.** A whitespace-only title overwrites the stored one. Only an absent or empty field is ignored.
- **Ids are not unique.** They come from `posts.length + 1`, so a create after a delete can reuse the id of a post still stored (`Posts.DeleteThenCreateDuplicatesId`). Ids stay unique, with post i carrying id i + 1, only while nothing is deleted (`Posts.NoDeletesKeepIdsArePositions`).
- **`escapeQuotes` does not escape backslashes.** A title holding `\'` comes out as `\\'`, whose quote ends the single-quoted argument in the `onclick` handler. A title ending in `\` escapes the quote that the markup writes after it (`Client.BackslashesPassThrough`).
- **Update and delete act on the first match.** When ids repeat, only the first post with the id is updated or deleted, because both use a front-to-back search.

## Model

| member | source | states |
|---|---|---|
| `Posts.Seed` | index.js:28-31 | The store starts with two posts stamped with the two start-up clock readings. Post i has id i + 1, ids are unique and no title or content is empty. |
| `Server.PostStore.constructor` | index.js:28-31 | The store starts with exactly the two seed posts, ids 1 and 2. It already satisfies "post i has id i + 1", unique ids and non-empty fields. |
| `Posts.FirstMatch` | index.js:68 | The result is the position of the first post whose id equals the numeric path id. It is None exactly when the id is not a number or no post carries it. |
| `Server.PostStore.FindIndex` | index.js:81 | The front-to-back scan returns exactly `FirstMatch` of the current posts: a post with the id and none before it, or None when nothing matches. |
| `Posts.HandleCreate` | index.js:45-61 | When title and content are both truthy: exactly one post is appended, with id old length + 1 and the given fields and timestamp. Every earlier post stays in place and the answer is that post. Otherwise: BadRequest, store unchanged. |
| `Server.PostStore.Create` | index.js:45-61 | The new store and the answer are those of `HandleCreate` on the old store. |
| `Posts.Patch` | index.js:70-71 | A field changes only when the supplied value is truthy, and a truthy value always replaces it. The id and createdAt never change. |
| `Posts.HandleUpdate` | index.js:64-76 | Unknown or non-numeric id: NotFound, store unchanged. Otherwise only the first matching post changes, and the length is unchanged. Its title becomes the supplied title iff that title is truthy, and likewise its content. Its id and createdAt never change. The answer is the updated post. |
| `Server.PostStore.Update` | index.js:64-76 | The new store and the answer are those of `HandleUpdate` on the old store. |
| `Posts.HandleDelete` | index.js:79-89 | Unknown or non-numeric id: NotFound, store unchanged. Otherwise exactly the first matching post is removed. The length drops by one, the others keep their order and the multiset loses just that post. |
| `Server.PostStore.Delete` | index.js:79-89 | The new store and the answer are those of `HandleDelete` on the old store. |
| `Server.PostStore.List` | index.js:40 | The listing reads the store without changing it. It is a permutation of the posts, ordered by createdAt newest first. Posts with equal timestamps keep their storage order. |
| `Posts.InsertNewestFirst` | index.js:40 | Inserting into a newest-first list keeps it newest first and adds exactly one element. |
| `Posts.SortNewestFirst` | index.js:40 | The sorted copy is ordered by createdAt, non-increasing, and has as many posts as the store. |
| `Posts.SortIsPermutation` | index.js:40 | The sorted copy holds exactly the stored posts (equal multisets). |
| `Posts.SortKeepsStampOrder` | index.js:40 | The sort is stable: for every timestamp, the posts stamped with it appear in the listing in their storage order. |
| `Posts.ListingAfterTwoCreates` | index.js:40 | Seed posts share one timestamp and two later posts follow. The listing is: the newer post, the older post, then the seed posts in storage order. |
| `Posts.NonNumericIdNotFound` | index.js:64-89 | A path id that is not a number answers NotFound to update and delete and leaves the store unchanged. |
| `Posts.EmptyUpdateIsNoOp` | index.js:70-71 | An update whose title and content are both absent or empty leaves every stored post as it was. |
| `Posts.SecondDeleteNotFound` | index.js:81-87 | When ids are unique, deleting an id a second time answers NotFound. |
| `Posts.HandleKeepsIdsArePositions` | index.js:50 | A create or an update keeps "post i has id i + 1". |
| `Posts.NoDeletesKeepIdsArePositions` | index.js:50 | A sequence of requests without deletes keeps "post i has id i + 1", so ids stay unique. |
| `Posts.SeedWithoutDeletesHasUniqueIds` | index.js:28-31 | From the seed, after any creates and updates, post i has id i + 1 and no two posts share an id. |
| `Posts.DeleteThenCreateDuplicatesId` | index.js:50 | Start from the seed, delete id 1, then create a post. The store then holds two posts, both with id 2. |
| `Posts.HandleKeepsAllFilled` | index.js:48-71 | No request stores an empty title or content. |
| `Posts.RunKeepsAllFilled` | index.js:28-89 | From a store whose posts all have a non-empty title and content, every sequence of requests keeps it so. |
| `Posts.FirstMatchOfAppended` | index.js:68 | A post appended with an id nobody else carries is found, at the end, by that id. |
| `Posts.CreateUpdateDeleteById` | index.js:45-89 | Ids match positions. A created post gets id length + 1. Updating its title by that id keeps its content, id and timestamp. Deleting it gives back the store as it was before the create. A second delete of the id answers NotFound. |
| `Server.CreateEditDeleteScenario` | index.js:45-89 | Run on the class, from the seed: a created post gets id 3. Editing its title keeps its content. The first delete of id 3 succeeds and the second answers NotFound. |
| `Client.TrimStart` | public/script.js:18 | The result is a suffix of the input. Everything dropped is white space, and the result does not start with white space. |
| `Client.TrimEnd` | public/script.js:18 | The result is a prefix of the input. Everything dropped is white space, and the result does not end with white space. |
| `Client.IsWhiteSpace` | public/script.js:18-19 | Every character `trim` removes is a single UTF-16 code unit and is never an ASCII letter or digit. |
| `Client.Trim` | public/script.js:18-19 | The result is a contiguous slice of the input. Everything before and after it is white space, and when non-empty it neither starts nor ends with white space. |
| `Client.TrimIsEmptyIffBlank` | public/script.js:21 | A trimmed field is empty iff the field holds only white space. |
| `Client.TrimIdempotent` | public/script.js:70-71 | Trimming twice is trimming once. |
| `Client.AddFormBody` | public/script.js:18-24 | The add form sends nothing iff either field is blank. Otherwise it sends the two trimmed fields. |
| `Client.EditPayload` | public/script.js:70-75 | The edit body holds a title iff the title field is not blank, and likewise content. Present values are the trimmed fields and never empty. |
| `Client.AddFormBodyIsAccepted` | public/script.js:26-31 | Every body the add form sends is accepted by `POST /posts`. The server stores a post with the trimmed fields and the next id. |
| `Client.BlankTitleOnlyRefusedByForm` | public/script.js:18-24 | Any non-empty title made only of white space, sent with a content the form accepts, is refused by the form but stored unchanged by the server, whose check has no trim. |
| `Client.EditNeverBlanksAField` | public/script.js:73-75 | A PATCH built by the edit form never empties a stored field. Each field that is sent replaces the stored one; a blank form field keeps the stored value. |
| `Client.ReplaceAll` | public/script.js:154 | A global one-character replace changes the length by (replacement length - 1) per occurrence. |
| `Client.EscapeEachProperties` | public/script.js:154 | The per-character rewrite adds one character per `'` and five per `"`. Its output contains no `"`, every `'` in it follows a backslash, and it never starts with `'`. |
| `Client.EscapeQuotesIsPerCharacter` | public/script.js:153-155 | The two global replaces equal the one-pass rewrite: `'` becomes `\'`, `"` becomes `&quot;`, and every other character is copied. |
| `Client.EscapeQuotes` | public/script.js:153-155 | The two replaces, in source order, give the one-pass rewrite. The output length is the input length + count of `'` + 5 × count of `"`. The output contains no `"`, and every `'` in it is immediately preceded by a backslash. That backslash may be one copied from the input, so the output is not safe inside quotes. |
| `Client.BackslashesPassThrough` | public/script.js:154 | Backslashes are copied unescaped: `\'` becomes `\\'`, and `a\` comes out as `a\`. |
| `Client.EscapeQuotesSplit` | public/script.js:154 | Escaping works character by character. A character between two parts is rewritten on its own, and the parts around it are escaped in place and in order. |
| `Client.EscapeQuotesKeepsQuoteFree` | public/script.js:154 | A string containing neither quote comes out unchanged. |

## Left out

- Express wiring is not modelled: static files, body parsers, EJS rendering, JSON serialisation and `app.listen` (index.js:6-22, 41, 94-96). Each handler's answer is a `Response` value instead.
- The clock (`new Date()` at index.js:29-30, 53) is not modelled. Timestamps are integer parameters: the seed's to the constructor, a new post's to `Create`.
- JavaScript loose equality `p.id == id` is modelled only for paths that parse to an integer. The path id is an `Option<int>` holding the number, or None when the path is not one. Strings that JavaScript would coerce to a number anyway are not modelled: `" 1 "`, `"0x1"` and `"1e0"`. An empty id cannot occur, because the `/posts/:id` routes do not match an empty segment.
- Body fields are `Option<string>`: absent, or a string whose truthiness is "non-empty". Non-string JSON values (numbers, booleans, arrays, objects) are not modelled.
- Posts are values, not shared objects. Update's answer is a copy of the updated post, where the source returns the stored object itself. Nothing in the source aliases a post afterwards.
- Concurrency is not modelled: each handler is one atomic step.
- The browser's fetch/async flow, `alert` and `confirm` are not modelled (public/script.js:26-44, 77-115).
- Nor are `editPost`, `cancelEdit`, `deletePost` or the DOM helpers (public/script.js:49-61, 100-150).
- Locale date formatting is not modelled (public/script.js:129-130). `escapeQuotes` is modelled as a function, not at its use inside the generated markup.
- `Client.Trim` covers the Unicode white-space characters of the ECMAScript standard as code points. A JavaScript string is UTF-16, but every one of these characters is a single code unit.
