# Mimir core, modelled in Dafny

Mimir is a small Flask front end to a classroom API. This project models the
three pieces of `mimir.py` that hold logic rather than plumbing:

- **`parserInator`**: fetches a page of a collection (courses, coursework, …).
  It reduces every raw item to a flat record `{itemName, itemID, itemSection?,
  itemMaxPoints?}`, follows `nextPageToken` recursively, concatenates the pages
  and sorts the result by lower-cased `itemName`. Any exception on the way
  makes the answer `None`.
- **`getUsername`**: the short display name, built with Python slice
  arithmetic around `find(" ")`.
- **`login_required`**: the gate in front of every signed-in route. With a
  token in the session the handler runs. Without one, the session is cleared
  and the caller is redirected to `/login`.

Modules, one per file:

| file | module | contents |
|---|---|---|
| `optional.dfy` | `Optional` | `Option`, failure-compatible, so `:-` plays the role of an exception |
| `strings.dfy` | `Strings` | `removeprefix`, `find`, Python slicing, ASCII `lower()`, Python string order |
| `json.dfy` | `Json` | JSON values; Python `in`, subscript and iteration on them |
| `sorting.dfy` | `Sorting` | the stable sort behind `sorted(…, key=…)` and its stability notion |
| `auth_gate.dfy` | `AuthGate` | `login_required` |
| `flattener.dfy` | `Flattener` | `parserInator`: item mapping, pagination, sorting, requests sent |
| `username.dfy` | `Username` | `getUsername` |
| `example.dfy` | `Example` | one worked page of two courses |

Modelling choices:

- **Responses.** A JSON object is its member list as parsed.
  - A lookup sees the last occurrence of a key.
  - Iteration sees keys in the order of their first occurrence, as a Python
    dict built by `json.loads` does.
- **Python operators.** `in`, subscript and iteration follow Python for each
  JSON type.
  - `in` tests a dict for a key, a string for a substring and a list for an
    element; on anything else it raises.
  - Only a dict can be subscripted with a string.
  - Iterating the collection value gives a list's elements, a dict's keys or a
    string's characters.
- **The collection.** It is the value of the response's first key, whatever
  that value is.
- **The HTTP client.** It becomes the sequence of answers the server gives:
  request i is answered by `pages[i]`, and a request past the end fails.
- **Sorting.** The model sorts by insertion, stably, by the key
  `itemName.lower()`, compared with Python's string order. Python's `sorted`
  uses a different algorithm, but `Sorting.SortedUnique` proves that every
  stable sort gives the same result.
  - `.lower()` raises on a non-string name.
  - Python computes the key of every element, even for a one-element list.
  - So one non-string name turns the whole answer into `None`.
- **Main theorem.** `SortingOnceSuffices` proves that the recursion sorts each
  partial result, then sorts again with the earlier page in front, and that
  this equals sorting the plain concatenation of all pages once.
- **Easily misread behaviour.** Four behaviours of the code are easy to misread:
  - `getUsername("Jane Doe")` is `"Jane D"`: the first word, the space and one
    more character.
  - The gate tests only that the `"token"` key is present, so an empty token
    is admitted.
  - A collection value that is a dict or a string is iterated rather than
    rejected.
  - An HTTP error answer is not a failure. The client does not raise on a
    non-2xx status, so an error body such as `{"error": {"code": 401}}` is
    parsed like any other answer (`Fetched`). Its first key's value is a dict
    whose keys are iterated, and each key becomes a `"Name not found"` record.
    `FetchFailed` stands only for a request, or its JSON decoding, that raises.

## Model

| member | source | states |
|---|---|---|
| Strings.RemovePrefix | mimir.py:84 | with the prefix present, prefix + result is the input; without it the input is returned unchanged |
| Strings.RemovePrefixOfConcat | mimir.py:84 | removing `p` from `p + t` gives back `t`, and only one leading copy of `p` is removed |
| Strings.Find | mimir.py:111 | `find` gives -1 exactly when the character is absent; otherwise the index of its first occurrence |
| Strings.SliceJoin | mimir.py:112 | adjacent slices join, `s[a:b] + s[b:c] == s[a:c]`, whenever the normalised bounds are in order; `getUsername` is proved through it |
| Strings.LowerChar | mimir.py:95 | the lower-cased character is never upper case; upper-case ASCII letters move by 32, everything else is unchanged |
| Strings.Lower | mimir.py:95 | `lower()` keeps the length and lower-cases character by character |
| Strings.LexLeTotal | mimir.py:95 | any two sort keys are comparable |
| Strings.LexLeTransitive | mimir.py:95 | the string order used by `sorted` is transitive |
| Strings.LexLeAntisymmetric | mimir.py:95 | two keys that are each `<=` the other are equal |
| Strings.ProperPrefixSortsFirst | mimir.py:95 | a proper prefix sorts strictly before the longer string |
| Json.Get | mimir.py:76 | `key["name"]` is present exactly when the key is; its value is the last member with that key |
| Json.GetUnique | mimir.py:76 | a key occurring once is looked up to its own member's value |
| Json.KeyOrder | mimir.py:72 | the dict's keys, each once, exactly the keys present, and starting with the first member's key, which is the key `next(iter(...))` yields |
| Json.Contains | mimir.py:75 | `in` raises exactly on null, booleans and numbers |
| Json.Subscript | mimir.py:76 | a subscript by string succeeds exactly on a dict holding the key, and yields the value of its last member with that key |
| Json.Iterate | mimir.py:72 | iteration raises exactly on scalars; a list gives its elements, a dict its keys in order, a string its characters |
| Sorting.Insert | mimir.py:95 | inserting into a sorted sequence keeps it sorted and adds exactly the one element |
| Sorting.StableSort | mimir.py:95 | the result is sorted and a permutation of the input |
| Sorting.FilterAppend | mimir.py:93-95 | the items of one key in a concatenation are those of the first part followed by those of the second |
| Sorting.InsertFilter | mimir.py:95 | an inserted element lands before every earlier element of equal key |
| Sorting.StableSortKeepsOrder | mimir.py:95 | stability: for every key, the items of that key appear in their input order |
| Sorting.SortedUnique | mimir.py:95 | a sorted sequence is fixed by its per-key order, so any two stable sorts of one input agree |
| Sorting.SortAfterSortedSuffix | mimir.py:93-95 | sorting `a + sorted(b)` gives the same as sorting `a + b` |
| Sorting.SortTwo | mimir.py:95 | two items whose keys are out of order are swapped |
| AuthGate.LoginRequired | mimir.py:120-129 | the handler runs exactly when `"token"` is in the session and then sees it unchanged; otherwise the session is emptied and the answer is a redirect to `/login` |
| AuthGate.RedirectIsSticky | mimir.py:124-128 | after a redirect the cleared session is refused again by any gated route |
| AuthGate.SignInOpensGate | mimir.py:124-125 | once a token is stored, the gate runs the handler on that session |
| Flattener.StripSection | mimir.py:83-84 | `removeprefix` succeeds exactly on a string and strips one `"Period: "` |
| Flattener.ItemName | mimir.py:73-78 | `name` when present, else `title`, else `"Name not found"`; `title` is consulted only without `name`; on a non-dict, the default unless the test or subscript raises |
| Flattener.ItemID | mimir.py:80-81 | `id` when present, else `"0"` |
| Flattener.ItemSection | mimir.py:83-84 | present exactly when `section` is; then `section` with the prefix stripped, or a failure when it is not a string |
| Flattener.ItemMaxPoints | mimir.py:86-87 | present exactly when `maxPoints` is, and copied verbatim |
| Flattener.FlattenItem | mimir.py:73-89 | a dict item fails exactly when its section is not a string; a string or list item gives the default record exactly when no field name is found in it; a scalar item raises |
| Flattener.FlattenDictItem | mimir.py:73-87 | every field of the record made from a dict item, including both precedence chains and both optional fields |
| Flattener.FlattenItems | mimir.py:72-89 | one record per raw item, in order, and `None` exactly when some item raises |
| Flattener.FlattenTwo | mimir.py:72-89 | two raw items give their two records in order |
| Flattener.Collection | mimir.py:72 | an empty response raises; otherwise the iteration of the first key's value |
| Flattener.PageItems | mimir.py:72-89 | a page's records exist exactly when its collection iterates and every item flattens; no item is dropped, and the records are in order, each the record of its raw item |
| Flattener.EmptyCollection | mimir.py:72-89 | an empty collection gives an empty page, not an error |
| Flattener.NameKey | mimir.py:95 | for a string name, the key is the lower-cased name, of the same length; the key of a non-string name, which Python cannot compute, is never used because `SortByName` checks that every name is a string first |
| Flattener.AllNamedPermutation | mimir.py:95 | whether every name is a string does not depend on the order of the items |
| Flattener.SortByName | mimir.py:95 | the sort succeeds exactly when every name is a string; the result is sorted by lower-cased name, is a permutation, and keeps equal names in input order |
| Flattener.ParserInator | mimir.py:63-100 | a result needs a token in the session, and is sorted by lower-cased name with only string names |
| Flattener.SinglePage | mimir.py:91-95 | a page without a cursor gives its own records, sorted |
| Flattener.EmptyPage | mimir.py:72-95 | a last page with an empty collection gives the empty list |
| Flattener.NoKeysFails | mimir.py:72 | a response without keys makes the whole call `None` |
| Flattener.SortMerge | mimir.py:93-95 | sorting a page's records in front of an already sorted rest equals sorting the unsorted concatenation |
| Flattener.UnnamedSuffix | mimir.py:93-95 | a non-string name on a later page makes the sort of the whole concatenation fail |
| Flattener.ParserInatorStep | mimir.py:91-95 | from a page with a cursor, the answer is the sort of that page's records followed by the answer for the next request |
| Flattener.SortingOnceSuffices | mimir.py:91-95 | the recursive call sorts at every level, and this equals collecting all pages in order and sorting once |
| Flattener.ChainItemsCount | mimir.py:72-93 | along a chain of pages, the number of records is the total number of raw items |
| Flattener.CollectChain | mimir.py:91-93 | a complete chain of pages is collected whole, in page order |
| Flattener.CollectFindsChain | mimir.py:91-93 | whenever collection succeeds, it walked a complete chain ending in a page without a cursor |
| Flattener.BrokenChainFails | mimir.py:69-100 | all or nothing: if the walk reaches a page that fails to fetch or flatten, the whole answer is `None` |
| Flattener.ParserInatorOfChain | mimir.py:72-95 | over a complete chain: a result exactly when every name is a string; then sorted, a permutation of all pages' records, as long as the total raw item count, with equal names in page order |
| Flattener.ParserInatorNeedsChain | mimir.py:91-100 | any result comes from a complete chain whose names are all strings |
| Flattener.ChainOfTwo | mimir.py:91-93 | a page with a cursor followed by a last page is a chain of two that holds both pages' records |
| Flattener.TwoPages | mimir.py:72-95 | two pages give a permutation of page one's records followed by page two's, as many as the two collections hold |
| Flattener.RequestsSent | mimir.py:70-93 | without a token no request is sent; the first request carries the caller's parameters; no more than one request per answer plus one; every request differs from the first only in `pageToken` |
| Flattener.CursorForwarded | mimir.py:91-93 | each later request follows a page that carried a cursor, and carries that cursor as `pageToken` |
| Flattener.RequestsOfChain | mimir.py:91-93 | over a chain of n pages exactly n requests are sent |
| Username.GetUsername | mimir.py:109-113 | with a first space at i, the prefix of length min(i + 2, length); with no space, the name minus its last character, or the name itself when it has at most one; always a prefix of the name |
| Username.TwoWordExample | mimir.py:111-112 | "Jane Doe" becomes "Jane D" |
| Username.OneWordExample | mimir.py:111-112 | "Ada" becomes "Ad" |
| Example.AlgebraTwoItem | mimir.py:73-89 | a course with name, id and `"Period: 3"` flattens to name, id and section `"3"` |
| Example.CaseInsensitiveOrder | mimir.py:95 | "Algebra II" sorts after "algebra I" once both are lower-cased |
| Example.CoursesExample | mimir.py:63-95 | a single page of two courses comes back with "algebra I" first |

## Left out

- The OAuth client (`googleyeyes.get`, `authorize_redirect`, `authorize_access_token`) is a network call. It is replaced by the sequence of answers, and a failed fetch or unparsable body is `FetchFailed`.
- `fileLogger` and the `finally` clause that calls it (mimir.py:50-57, 102-103) are file I/O. An exception raised there would replace the return value. When the session holds a token, the model assumes the dump succeeds, including the read of the user's name from the token.
- Flattener.ParserInator: without a `"token"` in the session its `None` stands for an exception that escapes `parserInator`. The read at mimir.py:70 raises `KeyError`, which is caught. The same read in `fileLogger` (mimir.py:53), run by the `finally` clause, raises again and the exception leaves the call. Every route that calls `parserInator` sits behind `login_required`, so this case is not reached in the application.
- `flash` and `print` in the error path are user-interface output only.
- `callType` and `source` only label the dump and address the HTTP request, so they are not parameters of the model.
- The caller's `params` dict is mutated in place: after the call it keeps the last `pageToken`. The model exposes the parameters of every request (`RequestsSent`), not the caller's dict after the call.
- Flattener.ParserInator: the model does not bound the length of a cursor chain. Python recurses once per page (mimir.py:93) and stops at its recursion limit, about a thousand frames by default. On a chain that long, the deepest call's `RecursionError` becomes `None` (mimir.py:97-100), and every outer call then raises on unpacking `None` and also returns `None`. The model, and so `ParserInatorOfChain`, gives a sorted result for a chain of any length.
- Flattener.ParserInator: its own contract states only the token requirement, sortedness and string names. The content of the result is stated by `SortingOnceSuffices`, `ParserInatorOfChain` and `BrokenChainFails`.
- Strings.Lower: `str.lower()` is modelled on ASCII letters only. Full Unicode case mapping, which can change a string's length, is not modelled.
- JSON numbers are integers; floating-point values are not modelled.
- A top-level response that is not an object (a list or a string at the top) is not modelled. The classroom API always answers with an object.
- The effects a route handler has on the session are outside `login_required`. The handler is modelled as a pure function of the session.
- The global `client_state` and the login callback's state check (mimir.py:26, 180-211) are process-global mutable state used only for printing.
- Session-lifetime configuration (`cookie_expirey`, mimir.py:135-147), templates, static files and `app.run` are framework configuration.
