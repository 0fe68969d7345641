/** `parserInator`: fetch one page of a collection from the classroom API,
    reduce every raw item to a flat record, follow `nextPageToken` to the
    following pages, and return everything sorted by lower-cased name; any
    exception on the way turns the whole answer into `None`.

    The HTTP client is replaced by the list of responses the server gives:
    the i-th request issued is answered by `pages[i]`, and a request past
    the end of the list fails like a failed fetch. */
module Flattener {
  import opened Optional
  import opened Json
  import opened Strings
  import opened Sorting
  import AuthGate

  const NameNotFound: string := "Name not found"
  const DefaultID: string := "0"
  const SectionPrefix: string := "Period: "
  const NextPageTokenKey: string := "nextPageToken"
  const PageTokenKey: string := "pageToken"

  /** The item fields the flattener asks for, in the order it asks. */
  const ItemFields: seq<string> := ["name", "title", "id", "section", "maxPoints"]

  /** The normalised record handed to the templates. `itemName` and `itemID`
      are copied verbatim, so they are JSON values; a returned list only
      holds string names, because sorting raises on any other. */
  datatype FlatItem = FlatItem(
    itemName: Json,
    itemID: Json,
    itemSection: Option<string>,
    itemMaxPoints: Option<Json>)

  /** The record a raw item with none of the item fields produces. */
  const DefaultItem: FlatItem := FlatItem(JStr(NameNotFound), JStr(DefaultID), None, None)

  /** One server answer: a failed request, or the parsed top-level object. */
  datatype Page = FetchFailed | Fetched(body: Fields)

  /** Query parameters of one request. */
  type Params = map<string, Json>

  /** `v.removeprefix("Period: ")`, which raises on anything but a string. */
  function StripSection(v: Json): (r: Option<string>)
    ensures r.Some? <==> v.JStr?
    ensures r.Some? ==> r.value == RemovePrefix(v.str, SectionPrefix)
  {
    match v
    case JStr(s) => Some(RemovePrefix(s, SectionPrefix))
    case _ => None
  }

  /** `itemName`: the item's `name` if it has one, else its `title`, else
      the sentinel. `title` is not even tested when `name` is present. */
  function ItemName(e: Json): (r: Option<Json>)
    ensures e.JObj? ==> r.Some?
    ensures e.JObj? && HasKey(e.fields, "name") ==> r == Get(e.fields, "name")
    ensures e.JObj? && !HasKey(e.fields, "name") && HasKey(e.fields, "title") ==> r == Get(e.fields, "title")
    ensures e.JObj? && !HasKey(e.fields, "name") && !HasKey(e.fields, "title") ==> r == Some(JStr(NameNotFound))
    ensures !e.JObj? ==> (r.Some? <==> Contains(e, "name") == Some(false) && Contains(e, "title") == Some(false))
    ensures !e.JObj? && r.Some? ==> r.value == JStr(NameNotFound)
  {
    var hasName :- Contains(e, "name");
    if hasName then Subscript(e, "name")
    else
      var hasTitle :- Contains(e, "title");
      if hasTitle then Subscript(e, "title") else Some(JStr(NameNotFound))
  }

  /** `itemID`: the item's `id`, else `"0"`. */
  function ItemID(e: Json): (r: Option<Json>)
    ensures e.JObj? ==> r == Some(Get(e.fields, "id").GetOr(JStr(DefaultID)))
    ensures !e.JObj? ==> (r.Some? <==> Contains(e, "id") == Some(false))
    ensures !e.JObj? && r.Some? ==> r.value == JStr(DefaultID)
  {
    var hasId :- Contains(e, "id");
    if hasId then Subscript(e, "id") else Some(JStr(DefaultID))
  }

  /** `itemSection`: absent without a `section`; otherwise the section with
      one leading "Period: " removed, raising when it is not a string. */
  function ItemSection(e: Json): (r: Option<Option<string>>)
    ensures e.JObj? && !HasKey(e.fields, "section") ==> r == Some(None)
    ensures e.JObj? && HasKey(e.fields, "section") ==>
      r == (match Get(e.fields, "section").value
            case JStr(s) => Some(Some(RemovePrefix(s, SectionPrefix)))
            case _ => None)
    ensures !e.JObj? ==> (r.Some? <==> Contains(e, "section") == Some(false))
    ensures !e.JObj? && r.Some? ==> r.value == None
  {
    var hasSection :- Contains(e, "section");
    if hasSection then
      var v :- Subscript(e, "section");
      var s :- StripSection(v);
      Some(Some(s))
    else Some(None)
  }

  /** `itemMaxPoints`: present exactly when the item has `maxPoints`, copied verbatim. */
  function ItemMaxPoints(e: Json): (r: Option<Option<Json>>)
    ensures e.JObj? ==> r == Some(Get(e.fields, "maxPoints"))
    ensures !e.JObj? ==> (r.Some? <==> Contains(e, "maxPoints") == Some(false))
    ensures !e.JObj? && r.Some? ==> r.value == None
  {
    var hasMaxPoints :- Contains(e, "maxPoints");
    if hasMaxPoints then
      var v :- Subscript(e, "maxPoints");
      Some(Some(v))
    else Some(None)
  }

  /** The loop body of `parserInator` for one raw item `e`, with Python's
      `in` and subscript applied to whatever JSON value `e` is. */
  function FlattenItem(e: Json): (r: Option<FlatItem>)
    // A dict item fails only when its section is not a string.
    ensures e.JObj? ==>
      (r.None? <==> HasKey(e.fields, "section") && !Get(e.fields, "section").value.JStr?)
    // A string or list item: finding any field name makes the subscript raise.
    ensures e.JStr? || e.JArr? ==> (r.Some? <==> forall f | f in ItemFields :: Contains(e, f) == Some(false))
    ensures (e.JStr? || e.JArr?) && r.Some? ==> r.value == DefaultItem
    // `in` raises on a number, a boolean or null.
    ensures e.JNull? || e.JBool? || e.JNum? ==> r.None?
  {
    var name :- ItemName(e);
    var id :- ItemID(e);
    var section :- ItemSection(e);
    var maxPoints :- ItemMaxPoints(e);
    Some(FlatItem(name, id, section, maxPoints))
  }

  /** The fields of the record made from a dict item: `name` before `title`
      before the sentinel, `id` before "0", the section with one prefix
      removed, and max points copied; none is present unless the item has it. */
  lemma FlattenDictItem(fs: Fields)
    requires FlattenItem(JObj(fs)).Some?
    ensures var item := FlattenItem(JObj(fs)).value;
      && (HasKey(fs, "name") ==> Some(item.itemName) == Get(fs, "name"))
      && (!HasKey(fs, "name") && HasKey(fs, "title") ==> Some(item.itemName) == Get(fs, "title"))
      && (!HasKey(fs, "name") && !HasKey(fs, "title") ==> item.itemName == JStr(NameNotFound))
      && (HasKey(fs, "id") ==> Some(item.itemID) == Get(fs, "id"))
      && (!HasKey(fs, "id") ==> item.itemID == JStr(DefaultID))
      && (item.itemSection.Some? <==> HasKey(fs, "section"))
      && (HasKey(fs, "section") ==>
            item.itemSection == Some(RemovePrefix(Get(fs, "section").value.str, SectionPrefix)))
      && item.itemMaxPoints == Get(fs, "maxPoints")
  {
  }
  /** The loop over one page's raw items: one flat item per raw item, in
      order, or `None` as soon as one raises. */
  function FlattenItems(elems: seq<Json>): (r: Option<seq<FlatItem>>)
    ensures r.Some? <==> forall i | 0 <= i < |elems| :: FlattenItem(elems[i]).Some?
    ensures r.Some? ==> |r.value| == |elems|
    ensures r.Some? ==> forall i | 0 <= i < |elems| :: r.value[i] == FlattenItem(elems[i]).value
  {
    if |elems| == 0 then Some([])
    else
      var first :- FlattenItem(elems[0]);
      var rest :- FlattenItems(elems[1..]);
      Some([first] + rest)
  }

  /** `ogList[next(iter(ogList))]` iterated: the value of the FIRST key of the
      response, whatever that key is called and whatever its value is. An
      empty response raises `StopIteration`. */
  function Collection(body: Fields): (r: Option<seq<Json>>)
    ensures |body| == 0 ==> r.None?
    ensures |body| > 0 ==> HasKey(body, body[0].0) && r == Iterate(Get(body, body[0].0).value)
  {
    if |body| == 0 then None
    else
      var first := KeyOrder(body)[0];
      match Get(body, first)
      case None => None
      case Some(v) => Iterate(v)
  }

  /** The flat items of one page, before any following page is read. */
  function PageItems(body: Fields): (r: Option<seq<FlatItem>>)
    ensures r.Some? <==> Collection(body).Some? && FlattenItems(Collection(body).value).Some?
    ensures r.Some? ==> |r.value| == |Collection(body).value|
    ensures r.Some? ==> forall i | 0 <= i < |r.value| :: r.value[i] == FlattenItem(Collection(body).value[i]).value
  {
    var elems :- Collection(body);
    FlattenItems(elems)
  }

  /** Two raw items give their two records, in order. */
  lemma FlattenTwo(x: Json, y: Json, fx: FlatItem, fy: FlatItem)
    requires FlattenItem(x) == Some(fx) && FlattenItem(y) == Some(fy)
    ensures FlattenItems([x, y]) == Some([fx, fy])
  {
    var elems := [x, y];
    assert elems[0] == x && elems[1] == y;
    var r := FlattenItems(elems);
    assert r.Some?;
    assert r.value[0] == fx && r.value[1] == fy;
    assert r.value == [fx, fy];
  }

  /** An empty collection is not an error: it gives an empty page. */
  lemma EmptyCollection(body: Fields)
    requires Collection(body) == Some([])
    ensures PageItems(body) == Some([])
  {
  }

  /** The sort key `l["itemName"].lower()`. Python raises on a non-string
      name; the `[]` given for one is never used, because `SortByName`
      checks `AllNamed` before sorting. */
  function NameKey(item: FlatItem): (k: string)
    ensures item.itemName.JStr? ==> k == Lower(item.itemName.str)
    ensures item.itemName.JStr? ==> |k| == |item.itemName.str|
  {
    if item.itemName.JStr? then Lower(item.itemName.str) else []
  }

  /** Every name is a string, so `.lower()` raises on none of them. */
  predicate AllNamed(xs: seq<FlatItem>) {
    forall x | x in xs :: x.itemName.JStr?
  }

  lemma AllNamedPermutation(a: seq<FlatItem>, b: seq<FlatItem>)
    requires multiset(a) == multiset(b)
    ensures AllNamed(a) <==> AllNamed(b)
  {
    assert forall x :: x in a <==> x in multiset(a);
    assert forall x :: x in b <==> x in multiset(b);
  }

  /** `sorted(xs, key=lambda l: l["itemName"].lower())`: Python computes the
      key of every element first, so one non-string name makes it raise. */
  function SortByName(xs: seq<FlatItem>): (r: Option<seq<FlatItem>>)
    ensures r.Some? <==> AllNamed(xs)
    ensures r.Some? ==> AllNamed(r.value) && Sorted(NameKey, r.value)
    ensures r.Some? ==> multiset(r.value) == multiset(xs) && |r.value| == |xs|
    ensures r.Some? ==> forall k :: Filter(NameKey, r.value, k) == Filter(NameKey, xs, k)
  {
    if AllNamed(xs) then
      StableSortKeepsOrder(NameKey, xs);
      AllNamedPermutation(StableSort(NameKey, xs), xs);
      Some(StableSort(NameKey, xs))
    else None
  }

  /** `parserInator(callType, source, params)`. The session must hold a token:
      without one, reading it raises, and the dump in the `finally` clause
      raises again on the same read, so the exception leaves `parserInator`;
      that escape is rendered as `None` here. Each page is flattened, a cursor sends
      the next request with `pageToken` set to it, the rest of the chain is
      appended, and the concatenation is sorted. The call label and the
      resource path only feed the diagnostic dump and the HTTP client. */
  function ParserInator(session: AuthGate.Session, params: Params, pages: seq<Page>): (r: Option<seq<FlatItem>>)
    ensures r.Some? ==> AuthGate.TokenKey in session
    ensures r.Some? ==> AllNamed(r.value) && Sorted(NameKey, r.value)
    decreases |pages|
  {
    if AuthGate.TokenKey !in session || |pages| == 0 then None
    else
      match pages[0]
      case FetchFailed => None
      case Fetched(body) =>
        var items :- PageItems(body);
        match Get(body, NextPageTokenKey)
        case None => SortByName(items)
        case Some(cursor) =>
          var rest :- ParserInator(session, params[PageTokenKey := cursor], pages[1..]);
          SortByName(items + rest)
  }

  /** The reference the sort is measured against: the same walk over the
      pages, concatenating page items in page order without sorting. */
  function Collect(session: AuthGate.Session, pages: seq<Page>): (r: Option<seq<FlatItem>>)
    decreases |pages|
  {
    if AuthGate.TokenKey !in session || |pages| == 0 then None
    else
      match pages[0]
      case FetchFailed => None
      case Fetched(body) =>
        var items :- PageItems(body);
        match Get(body, NextPageTokenKey)
        case None => Some(items)
        case Some(_) =>
          var rest :- Collect(session, pages[1..]);
          Some(items + rest)
  }

  /** A single page without a cursor: its items, sorted. */
  lemma SinglePage(session: AuthGate.Session, params: Params, body: Fields)
    requires AuthGate.TokenKey in session
    requires PageItems(body).Some? && !HasKey(body, NextPageTokenKey)
    ensures ParserInator(session, params, [Fetched(body)]) == SortByName(PageItems(body).value)
  {
  }

  /** A last page whose collection is empty gives the empty list, not `None`. */
  lemma EmptyPage(session: AuthGate.Session, params: Params, body: Fields)
    requires AuthGate.TokenKey in session
    requires Collection(body) == Some([]) && !HasKey(body, NextPageTokenKey)
    ensures ParserInator(session, params, [Fetched(body)]) == Some([])
  {
    EmptyCollection(body);
    SinglePage(session, params, body);
  }

  /** A response without any key makes `next(iter(...))` raise: `None`,
      whatever pages would have followed. */
  lemma NoKeysFails(session: AuthGate.Session, params: Params, pages: seq<Page>)
    requires |pages| > 0 && pages[0] == Fetched([])
    ensures ParserInator(session, params, pages) == None
  {
  }

  function SortCollected(c: Option<seq<FlatItem>>): Option<seq<FlatItem>> {
    match c
    case None => None
    case Some(xs) => SortByName(xs)
  }

  /** Sorting a sorted suffix again with a new prefix in front is the same as
      sorting the unsorted suffix with that prefix. */
  lemma {:induction false} SortMerge(items: seq<FlatItem>, ys: seq<FlatItem>)
    requires AllNamed(ys)
    ensures SortByName(items + StableSort(NameKey, ys)) == SortByName(items + ys)
  {
    var sorted := StableSort(NameKey, ys);
    assert multiset(items + sorted) == multiset(items + ys);
    AllNamedPermutation(items + sorted, items + ys);
    SortAfterSortedSuffix(NameKey, items, ys);
  }

  /** An unnamed item in the suffix makes the whole sort fail. */
  lemma {:induction false} UnnamedSuffix(items: seq<FlatItem>, ys: seq<FlatItem>)
    requires !AllNamed(ys)
    ensures !AllNamed(items + ys)
  {
    var x :| x in ys && !x.itemName.JStr?;
    assert x in items + ys;
  }

  /** One step of the walk from a page that carries a cursor. */
  lemma {:induction false} ParserInatorStep(session: AuthGate.Session, params: Params, pages: seq<Page>)
    requires AuthGate.TokenKey in session && |pages| > 0 && Continues(pages[0])
    ensures ParserInator(session, params, pages) == (
      match ParserInator(session, params[PageTokenKey := Cursor(pages[0])], pages[1..])
      case None => None
      case Some(rest) => SortByName(ItemsOf(pages[0]) + rest))
  {
  }

  /** Sorting every page's partial result, as the recursion does, is the
      same as sorting the plain concatenation once. */
  lemma {:induction false} SortingOnceSuffices(session: AuthGate.Session, params: Params, pages: seq<Page>)
    ensures ParserInator(session, params, pages) == SortCollected(Collect(session, pages))
    decreases |pages|
  {
    if AuthGate.TokenKey in session && |pages| > 0 && Continues(pages[0]) {
      var next := params[PageTokenKey := Cursor(pages[0])];
      SortingOnceSuffices(session, next, pages[1..]);
      ParserInatorStep(session, params, pages);
      CollectStep(session, pages);
      match Collect(session, pages[1..])
      case None =>
      case Some(ys) =>
        if AllNamed(ys) {
          SortMerge(ItemsOf(pages[0]), ys);
        } else {
          UnnamedSuffix(ItemsOf(pages[0]), ys);
        }
    }
  }

  /** The walk reads page `p` and goes on: fetched, flattened, with a cursor. */
  predicate Continues(p: Page) {
    p.Fetched? && PageItems(p.body).Some? && HasKey(p.body, NextPageTokenKey)
  }

  /** The walk reads page `p` and stops there: fetched, flattened, no cursor. */
  predicate Ends(p: Page) {
    p.Fetched? && PageItems(p.body).Some? && !HasKey(p.body, NextPageTokenKey)
  }

  /** The `nextPageToken` of a page the walk goes on from. */
  function Cursor(p: Page): Json
    requires Continues(p)
  {
    Get(p.body, NextPageTokenKey).value
  }

  /** The walk goes on from page `j` of `pages`. */
  predicate ContinuesAt(pages: seq<Page>, j: int) {
    0 <= j < |pages| && Continues(pages[j])
  }

  function CursorAt(pages: seq<Page>, j: int): Json
    requires ContinuesAt(pages, j)
  {
    Cursor(pages[j])
  }

  /** Dropping the first page shifts every position by one. */
  lemma ContinuesAtTail(pages: seq<Page>, j: nat)
    requires |pages| > 0
    ensures ContinuesAt(pages[1..], j) <==> ContinuesAt(pages, j + 1)
    ensures ContinuesAt(pages[1..], j) ==> CursorAt(pages[1..], j) == CursorAt(pages, j + 1)
  {
    if j < |pages| - 1 {
      assert pages[1..][j] == pages[j + 1];
    }
  }

  /** `pages[..n]` is a complete cursor chain: every page but the last points on. */
  predicate IsChain(pages: seq<Page>, n: nat) {
    && 1 <= n <= |pages|
    && (forall j | 0 <= j < n - 1 :: ContinuesAt(pages, j))
    && Ends(pages[n - 1])
  }

  function ItemsOf(p: Page): seq<FlatItem> {
    if p.Fetched? && PageItems(p.body).Some? then PageItems(p.body).value else []
  }

  /** Page 1's items, then page 2's, and so on up to page `n`. */
  function ChainItems(pages: seq<Page>, n: nat): seq<FlatItem>
    requires n <= |pages|
  {
    if n == 0 then [] else ItemsOf(pages[0]) + ChainItems(pages[1..], n - 1)
  }

  function RawCountOf(p: Page): nat {
    if p.Fetched? && Collection(p.body).Some? then |Collection(p.body).value| else 0
  }

  /** The number of raw items on the first `n` pages. */
  function RawCount(pages: seq<Page>, n: nat): nat
    requires n <= |pages|
  {
    if n == 0 then 0 else RawCountOf(pages[0]) + RawCount(pages[1..], n - 1)
  }

  lemma ChainTail(pages: seq<Page>, n: nat)
    requires IsChain(pages, n) && n > 1
    ensures Continues(pages[0]) && IsChain(pages[1..], n - 1)
  {
    assert ContinuesAt(pages, 0);
    forall j | 0 <= j < n - 2 ensures ContinuesAt(pages[1..], j) {
      assert ContinuesAt(pages, j + 1);
      ContinuesAtTail(pages, j);
    }
    assert pages[1..][n - 2] == pages[n - 1];
  }

  lemma ChainCons(pages: seq<Page>, m: nat)
    requires |pages| > 0 && Continues(pages[0]) && IsChain(pages[1..], m)
    ensures IsChain(pages, m + 1)
  {
    forall j | 0 <= j < m ensures ContinuesAt(pages, j) {
      if j > 0 {
        assert ContinuesAt(pages[1..], j - 1);
        ContinuesAtTail(pages, j - 1);
      }
    }
    assert pages[1..][m - 1] == pages[m];
  }

  lemma CollectStep(session: AuthGate.Session, pages: seq<Page>)
    requires AuthGate.TokenKey in session && |pages| > 0 && Continues(pages[0])
    ensures Collect(session, pages) == (
      match Collect(session, pages[1..])
      case None => None
      case Some(rest) => Some(ItemsOf(pages[0]) + rest))
  {
  }

  lemma CollectLast(session: AuthGate.Session, pages: seq<Page>)
    requires AuthGate.TokenKey in session && |pages| > 0 && Ends(pages[0])
    ensures Collect(session, pages) == Some(ItemsOf(pages[0]))
  {
  }

  lemma ItemsOfCount(p: Page)
    requires p.Fetched? && PageItems(p.body).Some?
    ensures |ItemsOf(p)| == RawCountOf(p)
  {
  }

  /** Along a chain, no raw item is dropped and none is added. */
  lemma {:induction false} ChainItemsCount(pages: seq<Page>, n: nat)
    requires IsChain(pages, n)
    ensures |ChainItems(pages, n)| == RawCount(pages, n)
    decreases n
  {
    ChainHead(pages, n);
    ItemsOfCount(pages[0]);
    if n > 1 {
      ChainTail(pages, n);
      ChainItemsCount(pages[1..], n - 1);
    }
    assert ChainItems(pages, n) == ItemsOf(pages[0]) + ChainItems(pages[1..], n - 1);
    assert RawCount(pages, n) == RawCountOf(pages[0]) + RawCount(pages[1..], n - 1);
  }

  /** The first page of a chain is read and flattened. */
  lemma ChainHead(pages: seq<Page>, n: nat)
    requires IsChain(pages, n)
    ensures pages[0].Fetched? && PageItems(pages[0].body).Some?
  {
    if n == 1 { assert Ends(pages[0]); } else { assert ContinuesAt(pages, 0); }
  }

  /** A complete chain is collected whole, in page order. */
  lemma {:induction false} CollectChain(session: AuthGate.Session, pages: seq<Page>, n: nat)
    requires AuthGate.TokenKey in session && IsChain(pages, n)
    ensures Collect(session, pages) == Some(ChainItems(pages, n))
    decreases n
  {
    if n == 1 {
      assert Ends(pages[0]);
      CollectLast(session, pages);
      assert Collect(session, pages) == Some(ItemsOf(pages[0]));
      assert ChainItems(pages[1..], 0) == [];
      assert ChainItems(pages, 1) == ItemsOf(pages[0]) + ChainItems(pages[1..], 0);
      assert ChainItems(pages, 1) == ItemsOf(pages[0]);
    } else {
      assert ContinuesAt(pages, 0);
      ChainTail(pages, n);
      CollectChain(session, pages[1..], n - 1);
      CollectStep(session, pages);
      assert ChainItems(pages, n) == ItemsOf(pages[0]) + ChainItems(pages[1..], n - 1);
    }
  }

  lemma CollectSucceeds(session: AuthGate.Session, pages: seq<Page>)
    requires Collect(session, pages).Some?
    ensures AuthGate.TokenKey in session && |pages| > 0
    ensures Ends(pages[0]) || (Continues(pages[0]) && Collect(session, pages[1..]).Some?)
  {
  }

  /** A complete chain behind a page that points on extends to that page. */
  lemma {:induction false} CollectChainCons(session: AuthGate.Session, pages: seq<Page>, m: nat)
    requires AuthGate.TokenKey in session && |pages| > 0 && Continues(pages[0]) && IsChain(pages[1..], m)
    ensures IsChain(pages, m + 1) && Collect(session, pages) == Some(ChainItems(pages, m + 1))
  {
    ChainCons(pages, m);
    CollectChain(session, pages, m + 1);
  }

  /** Whenever the walk succeeds, it walked a complete chain. */
  lemma {:induction false} CollectFindsChain(session: AuthGate.Session, pages: seq<Page>)
    requires Collect(session, pages).Some?
    ensures AuthGate.TokenKey in session
    ensures exists n :: IsChain(pages, n) && Collect(session, pages) == Some(ChainItems(pages, n))
    decreases |pages|
  {
    CollectSucceeds(session, pages);
    if Continues(pages[0]) {
      CollectFindsChain(session, pages[1..]);
      var m :| IsChain(pages[1..], m) && Collect(session, pages[1..]) == Some(ChainItems(pages[1..], m));
      CollectChainCons(session, pages, m);
    } else {
      assert IsChain(pages, 1);
      CollectChain(session, pages, 1);
    }
  }

  /** All or nothing: when the walk reaches page `i` and that page cannot be
      fetched or flattened (or no answer exists for it), the result is
      `None`, however much was already collected. */
  lemma {:induction false} BrokenChainFails(session: AuthGate.Session, params: Params, pages: seq<Page>, i: nat)
    requires i <= |pages|
    requires forall j | 0 <= j < i :: ContinuesAt(pages, j)
    requires i == |pages| || !(pages[i].Fetched? && PageItems(pages[i].body).Some?)
    ensures Collect(session, pages) == None
    ensures ParserInator(session, params, pages) == None
    decreases i
  {
    if AuthGate.TokenKey in session && i > 0 {
      assert ContinuesAt(pages, 0);
      forall j | 0 <= j < i - 1 ensures ContinuesAt(pages[1..], j) {
        assert ContinuesAt(pages, j + 1);
        ContinuesAtTail(pages, j);
      }
      BrokenChainFails(session, params[PageTokenKey := Cursor(pages[0])], pages[1..], i - 1);
      CollectStep(session, pages);
    }
    SortingOnceSuffices(session, params, pages);
  }

  /** The result of `parserInator` over a complete chain: present exactly
      when every name is a string; then it holds every item of every page
      (a permutation of the concatenation, of length the total raw item
      count), sorted by lower-cased name, with equal names in page order. */
  lemma ParserInatorOfChain(session: AuthGate.Session, params: Params, pages: seq<Page>, n: nat)
    requires AuthGate.TokenKey in session && IsChain(pages, n)
    ensures ParserInator(session, params, pages).Some? <==> AllNamed(ChainItems(pages, n))
    ensures ParserInator(session, params, pages).Some? ==>
      var r := ParserInator(session, params, pages).value;
      && Sorted(NameKey, r)
      && multiset(r) == multiset(ChainItems(pages, n))
      && |r| == RawCount(pages, n)
      && forall k :: Filter(NameKey, r, k) == Filter(NameKey, ChainItems(pages, n), k)
  {
    SortingOnceSuffices(session, params, pages);
    CollectChain(session, pages, n);
    ChainItemsCount(pages, n);
  }

  /** And conversely: a non-`None` result always comes from a complete chain. */
  lemma ParserInatorNeedsChain(session: AuthGate.Session, params: Params, pages: seq<Page>)
    requires ParserInator(session, params, pages).Some?
    ensures exists n :: IsChain(pages, n) && AllNamed(ChainItems(pages, n))
  {
    SortingOnceSuffices(session, params, pages);
    CollectFindsChain(session, pages);
  }

  /** A cursor page followed by a last page is a chain of two, whose items
      and raw count are the two pages' own. */
  lemma {:induction false} ChainOfTwo(pages: seq<Page>)
    requires |pages| == 2 && Continues(pages[0]) && Ends(pages[1])
    ensures IsChain(pages, 2)
    ensures ChainItems(pages, 2) == ItemsOf(pages[0]) + ItemsOf(pages[1])
    ensures RawCount(pages, 2) == RawCountOf(pages[0]) + RawCountOf(pages[1])
  {
    var tail := pages[1..];
    assert tail[0] == pages[1];
    assert IsChain(tail, 1);
    ChainCons(pages, 1);
    assert ChainItems(tail, 1) == ItemsOf(tail[0]) + ChainItems(tail[1..], 0);
    assert RawCount(tail, 1) == RawCountOf(tail[0]) + RawCount(tail[1..], 0);
  }

  /** Two pages, the first pointing at the second: both pages' items, and
      as many as the two pages hold together. */
  lemma {:induction false} TwoPages(session: AuthGate.Session, params: Params, b1: Fields, b2: Fields)
    requires AuthGate.TokenKey in session
    requires Continues(Fetched(b1)) && Ends(Fetched(b2))
    requires AllNamed(PageItems(b1).value + PageItems(b2).value)
    ensures ParserInator(session, params, [Fetched(b1), Fetched(b2)]).Some?
    ensures var r := ParserInator(session, params, [Fetched(b1), Fetched(b2)]).value;
      && multiset(r) == multiset(PageItems(b1).value + PageItems(b2).value)
      && |r| == |Collection(b1).value| + |Collection(b2).value|
  {
    var pages := [Fetched(b1), Fetched(b2)];
    ChainOfTwo(pages);
    ParserInatorOfChain(session, params, pages, 2);
  }

  /** Setting `pageToken` leaves every other parameter as it was. */
  lemma UpdateThenDrop(params: Params, c: Json)
    ensures params[PageTokenKey := c] - {PageTokenKey} == params - {PageTokenKey}
  {
  }

  /** The query parameters of every request the walk sends, in order: the
      caller's first, then the same dict with `pageToken` set to the cursor
      of the page just read (the code writes the cursor into `params` in
      place). Without a token in the session nothing is sent: reading the
      token raises first. */
  function RequestsSent(session: AuthGate.Session, params: Params, pages: seq<Page>): (reqs: seq<Params>)
    ensures AuthGate.TokenKey !in session <==> reqs == []
    ensures reqs != [] ==> reqs[0] == params
    ensures |reqs| <= |pages| + 1
    ensures forall i | 0 <= i < |reqs| :: reqs[i] - {PageTokenKey} == params - {PageTokenKey}
    decreases |pages|
  {
    if AuthGate.TokenKey !in session then []
    else if |pages| == 0 || pages[0].FetchFailed? || PageItems(pages[0].body).None? then [params]
    else
      match Get(pages[0].body, NextPageTokenKey)
      case None => [params]
      case Some(cursor) =>
        var rest := RequestsSent(session, params[PageTokenKey := cursor], pages[1..]);
        UpdateThenDrop(params, cursor);
        [params] + rest
  }

  lemma {:induction false} RequestsStep(session: AuthGate.Session, params: Params, pages: seq<Page>)
    requires AuthGate.TokenKey in session && |pages| > 0 && Continues(pages[0])
    ensures RequestsSent(session, params, pages)
            == [params] + RequestsSent(session, params[PageTokenKey := Cursor(pages[0])], pages[1..])
  {
  }

  /** Setting `pageToken` twice keeps only the second value. */
  lemma UpdateTwice(params: Params, c1: Json, c2: Json)
    ensures params[PageTokenKey := c1][PageTokenKey := c2] == params[PageTokenKey := c2]
  {
  }

  lemma {:induction false} RequestsShift(params: Params, pages: seq<Page>, reqs: seq<Params>, next: Params, rest: seq<Params>)
    requires |pages| > 0 && ContinuesAt(pages, 0) && next == params[PageTokenKey := CursorAt(pages, 0)]
    requires reqs == [params] + rest
    requires forall i | 0 <= i < |rest| - 1 ::
      ContinuesAt(pages[1..], i) && rest[i + 1] == next[PageTokenKey := CursorAt(pages[1..], i)]
    requires |rest| > 0 ==> rest[0] == next
    ensures forall i | 0 <= i < |reqs| - 1 ::
      ContinuesAt(pages, i) && reqs[i + 1] == params[PageTokenKey := CursorAt(pages, i)]
  {
    forall i | 0 <= i < |reqs| - 1
      ensures ContinuesAt(pages, i) && reqs[i + 1] == params[PageTokenKey := CursorAt(pages, i)]
    {
      assert reqs[i + 1] == rest[i];
      if i > 0 {
        ShiftOne(params, pages, next, rest[i], i);
      }
    }
  }

  /** One later request, seen from the first page instead of the second. */
  lemma ShiftOne(params: Params, pages: seq<Page>, next: Params, req: Params, i: nat)
    requires |pages| > 0 && ContinuesAt(pages, 0) && next == params[PageTokenKey := CursorAt(pages, 0)]
    requires i > 0 && ContinuesAt(pages[1..], i - 1)
    requires req == next[PageTokenKey := CursorAt(pages[1..], i - 1)]
    ensures ContinuesAt(pages, i) && req == params[PageTokenKey := CursorAt(pages, i)]
  {
    ContinuesAtTail(pages, i - 1);
    UpdateTwice(params, CursorAt(pages, 0), CursorAt(pages[1..], i - 1));
  }

  /** A request after the first is only sent because the page before it
      carried a cursor, and it carries exactly that cursor as `pageToken`. */
  lemma {:induction false} CursorForwarded(session: AuthGate.Session, params: Params, pages: seq<Page>)
    ensures var reqs := RequestsSent(session, params, pages);
      forall i | 0 <= i < |reqs| - 1 ::
        ContinuesAt(pages, i) && reqs[i + 1] == params[PageTokenKey := CursorAt(pages, i)]
    decreases |pages|
  {
    var reqs := RequestsSent(session, params, pages);
    if |reqs| > 1 {
      assert ContinuesAt(pages, 0);
      var next := params[PageTokenKey := CursorAt(pages, 0)];
      RequestsStep(session, params, pages);
      var rest := RequestsSent(session, next, pages[1..]);
      CursorForwarded(session, next, pages[1..]);
      RequestsShift(params, pages, reqs, next, rest);
    }
  }

  /** Over a complete chain of `n` pages exactly `n` requests are sent:
      every page once, nothing after the last. */
  lemma {:induction false} RequestsOfChain(session: AuthGate.Session, params: Params, pages: seq<Page>, n: nat)
    requires AuthGate.TokenKey in session && IsChain(pages, n)
    ensures |RequestsSent(session, params, pages)| == n
    decreases n
  {
    if n > 1 {
      ChainTail(pages, n);
      RequestsStep(session, params, pages);
      RequestsOfChain(session, params[PageTokenKey := Cursor(pages[0])], pages[1..], n - 1);
    }
  }
}
