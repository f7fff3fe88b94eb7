/** The settings storage.  The JSON backend keeps arrays, the SQLite backend keyed
    tables; both are the same store to their callers, but for one listing. */
module SettingsStore {
  import opened Results
  import opened Text
  import opened Tables

  datatype Account = Account(service: string, login: string, password: string)

  datatype Source = Source(url: string, priority: int, enabled: bool)

  function ServiceOf(a: Account): string {
    a.service
  }

  function UrlOf(s: Source): string {
    s.url
  }

  // ---- The store as its callers see it -----------------------------------

  datatype Store = Store(accounts: map<string, Account>, sources: map<string, Source>, meta: map<string, string>)

  const EMPTY := Store(map[], map[], map[])

  datatype Op =
    | UpsertAccount(account: Account)
    | DeleteAccount(service: string)
    | UpsertSource(source: Source)
    | RemoveSource(url: string)
    | SetMeta(key: string, value: string)
    | DeleteMeta(key: string)
    | Clear

  function Apply(s: Store, op: Op): Store {
    match op
    case UpsertAccount(a) => s.(accounts := s.accounts[a.service := a])
    case DeleteAccount(service) => s.(accounts := s.accounts - {service})
    case UpsertSource(src) => s.(sources := s.sources[src.url := src])
    case RemoveSource(url) => s.(sources := s.sources - {url})
    case SetMeta(key, value) => s.(meta := s.meta[key := value])
    case DeleteMeta(key) => s.(meta := s.meta - {key})
    case Clear => EMPTY
  }

  function ApplyAll(s: Store, ops: seq<Op>): Store {
    if ops == [] then s else Apply(ApplyAll(s, ops[..|ops| - 1]), ops[|ops| - 1])
  }

  // ---- What a history leaves ---------------------------------------------

  // A place in the store, and what can be in it.
  datatype Place = AccountOf(service: string) | SourceOf(url: string) | MetaOf(key: string)

  datatype Item = AnAccount(account: Account) | ASource(source: Source) | AValue(value: string)

  function Held(s: Store, at: Place): Option<Item> {
    match at
    case AccountOf(k) => if k in s.accounts then Some(AnAccount(s.accounts[k])) else None
    case SourceOf(k) => if k in s.sources then Some(ASource(s.sources[k])) else None
    case MetaOf(k) => if k in s.meta then Some(AValue(s.meta[k])) else None
  }

  // The operation writes the item to the place.
  predicate Writes(op: Op, at: Place, item: Item) {
    || (op.UpsertAccount? && at == AccountOf(op.account.service) && item == AnAccount(op.account))
    || (op.UpsertSource? && at == SourceOf(op.source.url) && item == ASource(op.source))
    || (op.SetMeta? && at == MetaOf(op.key) && item == AValue(op.value))
  }

  // The operation empties the place.
  predicate Empties(op: Op, at: Place) {
    || op.Clear?
    || (op.DeleteAccount? && at == AccountOf(op.service))
    || (op.RemoveSource? && at == SourceOf(op.url))
    || (op.DeleteMeta? && at == MetaOf(op.key))
  }

  ghost predicate Touches(op: Op, at: Place) {
    Empties(op, at) || exists item :: Writes(op, at, item)
  }

  // Operation k wrote the item, and none of the later ones touches its place.
  ghost predicate IsLastWrite(ops: seq<Op>, at: Place, item: Item, k: nat) {
    k < |ops| && Writes(ops[k], at, item) && forall j :: k < j < |ops| ==> !Touches(ops[j], at)
  }

  lemma OneOperation(s: Store, op: Op, at: Place, item: Item)
    ensures Writes(op, at, item) ==> Held(Apply(s, op), at) == Some(item)
    ensures Empties(op, at) ==> Held(Apply(s, op), at) == None
    ensures !Touches(op, at) ==> Held(Apply(s, op), at) == Held(s, at)
  {
    match op {
      case UpsertAccount(a) => assert at == AccountOf(a.service) ==> Writes(op, at, AnAccount(a));
      case UpsertSource(src) => assert at == SourceOf(src.url) ==> Writes(op, at, ASource(src));
      case SetMeta(key, value) => assert at == MetaOf(key) ==> Writes(op, at, AValue(value));
      case _ =>
    }
  }

  /** After any history from an empty store a place holds an item exactly when some
      operation wrote it there and no later one wrote or removed anything there, or
      cleared the store. */
  lemma {:induction false} StoreIsLastWrite(ops: seq<Op>, at: Place, item: Item)
    ensures Held(ApplyAll(EMPTY, ops), at) == Some(item) <==> exists k: nat :: IsLastWrite(ops, at, item, k)
  {
    hide Apply, Writes, Empties, Held;
    if ops == [] {
      NothingHeld(at);
    } else {
      var n := |ops| - 1;
      StoreIsLastWrite(ops[..n], at, item);
      OneOperation(ApplyAll(EMPTY, ops[..n]), ops[n], at, item);
      LastWriteGrows(ops, at, item);
      if x :| Writes(ops[n], at, x) {
        OneOperation(ApplyAll(EMPTY, ops[..n]), ops[n], at, x);
      }
    }
  }

  lemma NothingHeld(at: Place)
    ensures Held(EMPTY, at) == None
  {
  }

  lemma LastWriteGrows(ops: seq<Op>, at: Place, item: Item)
    requires ops != []
    ensures var n := |ops| - 1;
            (exists k: nat :: IsLastWrite(ops, at, item, k))
            <==> Writes(ops[n], at, item)
                 || (!Touches(ops[n], at) && exists k: nat :: IsLastWrite(ops[..n], at, item, k))
  {
    hide Writes, Empties;
    var n := |ops| - 1;
    if Writes(ops[n], at, item) {
      assert IsLastWrite(ops, at, item, n);
    } else if k: nat :| IsLastWrite(ops, at, item, k) {
      assert IsLastWrite(ops[..n], at, item, k);
    }
    if k: nat :| IsLastWrite(ops[..n], at, item, k) && !Touches(ops[n], at) {
      assert IsLastWrite(ops, at, item, k);
    }
  }

  // ---- The JSON document -------------------------------------------------

  datatype Document = Document(accounts: seq<Account>, sources: seq<Source>, meta: map<string, string>)

  function ApplyDocument(d: Document, op: Op): Document {
    match op
    case UpsertAccount(a) => d.(accounts := Upserted(d.accounts, ServiceOf, a))
    case DeleteAccount(service) => d.(accounts := Removed(d.accounts, ServiceOf, service))
    case UpsertSource(src) => d.(sources := Upserted(d.sources, UrlOf, src))
    case RemoveSource(url) => d.(sources := Removed(d.sources, UrlOf, url))
    case SetMeta(key, value) => d.(meta := d.meta[key := value])
    case DeleteMeta(key) => d.(meta := d.meta - {key})
    case Clear => Document([], [], map[])
  }

  function ApplyAllDocument(d: Document, ops: seq<Op>): Document {
    if ops == [] then d else ApplyDocument(ApplyAllDocument(d, ops[..|ops| - 1]), ops[|ops| - 1])
  }

  function TablesOf(d: Document): Store {
    Store(TableOf(d.accounts, ServiceOf), TableOf(d.sources, UrlOf), d.meta)
  }

  ghost predicate IsKeyed(d: Document) {
    HasUniqueKeys(d.accounts, ServiceOf) && HasUniqueKeys(d.sources, UrlOf)
  }

  lemma ApplyRefines(d: Document, op: Op)
    requires IsKeyed(d)
    ensures IsKeyed(ApplyDocument(d, op)) && TablesOf(ApplyDocument(d, op)) == Apply(TablesOf(d), op)
  {
    match op {
      case UpsertAccount(a) => UpsertRefines(d.accounts, ServiceOf, a);
      case DeleteAccount(service) => RemoveRefines(d.accounts, ServiceOf, service);
      case UpsertSource(src) => UpsertRefines(d.sources, UrlOf, src);
      case RemoveSource(url) => RemoveRefines(d.sources, UrlOf, url);
      case SetMeta(_, _) =>
      case DeleteMeta(_) =>
      case Clear =>
    }
  }

  /** From a document with unique keys, every history of operations keeps its keys
      unique and leaves the arrays standing for the keyed store. */
  lemma {:induction false} HistoryRefines(d: Document, ops: seq<Op>)
    requires IsKeyed(d)
    ensures IsKeyed(ApplyAllDocument(d, ops))
    ensures TablesOf(ApplyAllDocument(d, ops)) == ApplyAll(TablesOf(d), ops)
  {
    hide IsKeyed, TablesOf, Apply, ApplyDocument;
    if ops != [] {
      HistoryRefines(d, ops[..|ops| - 1]);
      ApplyRefines(ApplyAllDocument(d, ops[..|ops| - 1]), ops[|ops| - 1]);
    }
  }

  // ---- Order -------------------------------------------------------------

  // Higher priority first, then URL.
  predicate ListsBefore(a: Source, b: Source) {
    a.priority > b.priority || (a.priority == b.priority && Less(a.url, b.url))
  }

  ghost predicate IsListed(s: seq<Source>) {
    forall i, j :: 0 <= i < j < |s| ==> ListsBefore(s[i], s[j])
  }

  /** A listing of a table: its sources, each once, in order. */
  ghost predicate IsListingOf(s: seq<Source>, table: map<string, Source>) {
    && IsListed(s)
    && forall x :: x in s <==> x.url in table && table[x.url] == x
  }

  lemma ListsBeforeIsOrder(a: Source, b: Source, c: Source)
    ensures !ListsBefore(a, a)
    ensures a.url != b.url ==> ListsBefore(a, b) || ListsBefore(b, a)
    ensures ListsBefore(a, b) && ListsBefore(b, c) ==> ListsBefore(a, c)
  {
    LessIsOrder(a.url, b.url, c.url);
  }

  lemma FirstOfListing(s: seq<Source>, t: seq<Source>)
    requires IsListed(s) && IsListed(t) && s != [] && t != []
    requires forall x :: x in s <==> x in t
    ensures s[0] == t[0]
  {
    hide ListsBefore;
    assert s[0] in t && t[0] in s;
    var i :| 0 <= i < |t| && t[i] == s[0];
    var j :| 0 <= j < |s| && s[j] == t[0];
    if i > 0 && j > 0 {
      assert ListsBefore(t[0], t[i]) && ListsBefore(s[0], s[j]);
      ListsBeforeIsOrder(s[0], t[0], s[0]);
    }
  }

  /** There is only one listing of a table, so backends that hold the same table
      list it alike. */
  lemma {:induction false} ListingIsUnique(s: seq<Source>, t: seq<Source>)
    requires IsListed(s) && IsListed(t)
    requires forall x :: x in s <==> x in t
    ensures s == t
  {
    hide ListsBefore;
    if s == [] {
      EmptyHasNoItems(t);
    } else {
      assert s[0] in t;
      FirstOfListing(s, t);
      forall x
        ensures x in s[1..] <==> x in t[1..]
      {
        RestOfListing(s, x);
        RestOfListing(t, x);
      }
      ListingIsUnique(s[1..], t[1..]);
    }
  }

  lemma RestOfListing(s: seq<Source>, x: Source)
    requires IsListed(s) && s != []
    ensures x in s[1..] <==> x in s && x != s[0]
  {
    ListsBeforeIsOrder(s[0], s[0], s[0]);
    hide ListsBefore;
    assert s == [s[0]] + s[1..];
    if i :| 0 <= i < |s[1..]| && s[1..][i] == x {
      assert ListsBefore(s[0], s[i + 1]);
    }
  }

  /** In a listing priorities never rise, and among equal ones URLs ascend. */
  lemma ListingDescends(s: seq<Source>, table: map<string, Source>, i: nat, j: nat)
    requires IsListingOf(s, table) && i < j < |s|
    ensures s[i].priority > s[j].priority
         || (s[i].priority == s[j].priority && exists k: nat :: DiffersAt(s[i].url, s[j].url, k))
  {
    hide Less;
    LessIff(s[i].url, s[j].url);
  }

  // Sorted: nothing comes after what it belongs before.  Equal sources may repeat.
  ghost predicate IsOrdered(s: seq<Source>) {
    forall i, j :: 0 <= i < j < |s| ==> !ListsBefore(s[j], s[i])
  }

  /** Inserts into a sorted list: one step of the sort. */
  method Insert(s: seq<Source>, x: Source) returns (r: seq<Source>)
    requires IsOrdered(s)
    ensures IsOrdered(r) && multiset(r) == multiset(s) + multiset{x}
  {
    hide ListsBefore;
    var k := |s|;
    while k > 0 && ListsBefore(x, s[k - 1])
      invariant 0 <= k <= |s|
      invariant forall i :: k <= i < |s| ==> ListsBefore(x, s[i])
    {
      k := k - 1;
    }
    r := s[..k] + [x] + s[k..];
    assert s == s[..k] + s[k..];
    InsertedIsOrdered(s, k, x);
  }

  lemma InsertedIsOrdered(s: seq<Source>, k: nat, x: Source)
    requires IsOrdered(s) && k <= |s|
    requires k > 0 ==> !ListsBefore(x, s[k - 1])
    requires forall i :: k <= i < |s| ==> ListsBefore(x, s[i])
    ensures IsOrdered(s[..k] + [x] + s[k..])
  {
    hide ListsBefore;
    forall i | 0 <= i < k
      ensures !ListsBefore(x, s[i])
    {
      if i < k - 1 && ListsBefore(x, s[i]) {
        NotListedChains(x, s[i], s[k - 1]);
      }
    }
    forall i | k <= i < |s|
      ensures !ListsBefore(s[i], x)
    {
      ListsBeforeIsOrder(x, s[i], x);
    }
  }

  lemma NotListedChains(x: Source, y: Source, z: Source)
    requires ListsBefore(x, y) && !ListsBefore(z, y)
    ensures ListsBefore(x, z)
  {
    LessIsOrder(x.url, y.url, z.url);
    LessIsOrder(z.url, y.url, x.url);
  }

  // Without repeated URLs sorting leaves no choice.
  lemma OrderedIsListed(s: seq<Source>, items: multiset<Source>)
    requires IsOrdered(s) && multiset(s) == items
    requires forall i, j :: 0 <= i < j < |s| ==> s[i].url != s[j].url
    ensures IsListed(s)
  {
    hide ListsBefore;
    forall i, j | 0 <= i < j < |s|
      ensures ListsBefore(s[i], s[j])
    {
      ListsBeforeIsOrder(s[i], s[j], s[i]);
    }
  }

  // The entries of a table, each once, in ascending order of key.
  ghost predicate IsMetaListingOf(s: seq<(string, string)>, table: map<string, string>) {
    && IsAscending(KeysOf(s))
    && forall x :: x in s <==> x.0 in table && table[x.0] == x.1
  }

  function KeysOf(s: seq<(string, string)>): (keys: seq<string>)
    ensures |keys| == |s|
    ensures forall i :: 0 <= i < |s| ==> keys[i] == s[i].0
  {
    seq(|s|, i requires 0 <= i < |s| => s[i].0)
  }

  /** The iteration of a sorted JSON object, and SELECT ... ORDER BY key. */
  method InKeyOrder(table: map<string, string>) returns (r: seq<(string, string)>)
    ensures IsMetaListingOf(r, table)
  {
    hide Less;
    r := [];
    var rest := table.Keys;
    while rest != {}
      invariant rest <= table.Keys && IsAscending(KeysOf(r))
      invariant forall x :: x in r <==> x.0 in table && x.0 !in rest && table[x.0] == x.1
      invariant forall i, next :: 0 <= i < |r| && next in rest ==> Less(r[i].0, next)
      decreases |rest|
    {
      LeastExists(rest);
      var key :| key in rest && forall next :: next in rest ==> next == key || Less(key, next);
      r := r + [(key, table[key])];
      rest := rest - {key};
    }
  }

  lemma MetaListingIsUnique(s: seq<(string, string)>, t: seq<(string, string)>, table: map<string, string>)
    requires IsMetaListingOf(s, table) && IsMetaListingOf(t, table)
    ensures s == t
  {
    hide Less;
    forall key
      ensures key in KeysOf(s) <==> key in table
      ensures key in KeysOf(t) <==> key in table
    {
      KeyIsListed(s, table, key);
      KeyIsListed(t, table, key);
    }
    AscendingIsUnique(KeysOf(s), KeysOf(t));
    assert |KeysOf(s)| == |KeysOf(t)|;
    forall i | 0 <= i < |s|
      ensures s[i] == t[i]
    {
      assert KeysOf(s)[i] == KeysOf(t)[i];
      assert s[i] in s && t[i] in t;
    }
  }

  lemma KeyIsListed(s: seq<(string, string)>, table: map<string, string>, key: string)
    requires IsMetaListingOf(s, table)
    ensures key in KeysOf(s) <==> key in table
  {
    if key in KeysOf(s) {
      var i :| 0 <= i < |s| && KeysOf(s)[i] == key;
      assert s[i] in s;
    }
    if key in table {
      var x := (key, table[key]);
      assert x in s;
      var i :| 0 <= i < |s| && s[i] == x;
      assert KeysOf(s)[i] == key;
    }
  }

  // ---- The two backends --------------------------------------------------

  class JsonBackend {
    var document: Document

    constructor (document: Document)
      ensures this.document == document
    {
      this.document := document;
    }

    method DoUpsertAccount(acc: Account)
      modifies this
      ensures document == ApplyDocument(old(document), UpsertAccount(acc))
    {
      var n := FindKey(document.accounts, ServiceOf, acc.service);
      UpsertAt(document.accounts, ServiceOf, acc, n);
      if n < |document.accounts| {
        document := document.(accounts := document.accounts[n := acc]);
        return;
      }
      document := document.(accounts := document.accounts + [acc]);
    }

    method GetAccount(service: string) returns (r: Option<Account>)
      ensures r == if service in TablesOf(document).accounts then Some(TablesOf(document).accounts[service]) else None
    {
      var n := FindKey(document.accounts, ServiceOf, service);
      TableHasKeys(document.accounts, ServiceOf, service);
      if n < |document.accounts| {
        FirstIsTable(document.accounts, ServiceOf, n);
        return Some(document.accounts[n]);
      }
      return None;
    }

    /** The accounts, in the order of the array. */
    method ListAccounts() returns (r: seq<Account>)
      ensures r == document.accounts
    {
      r := [];
      for n := 0 to |document.accounts|
        invariant r == document.accounts[..n]
      {
        r := r + [document.accounts[n]];
      }
    }

    method DoDeleteAccount(service: string)
      modifies this
      ensures document == ApplyDocument(old(document), DeleteAccount(service))
    {
      var n := FindKey(document.accounts, ServiceOf, service);
      RemoveAt(document.accounts, ServiceOf, service, n);
      if n < |document.accounts| {
        document := document.(accounts := document.accounts[..n] + document.accounts[n + 1..]);
      }
    }

    method DoUpsertSource(src: Source)
      modifies this
      ensures document == ApplyDocument(old(document), UpsertSource(src))
    {
      var n := FindKey(document.sources, UrlOf, src.url);
      UpsertAt(document.sources, UrlOf, src, n);
      if n < |document.sources| {
        document := document.(sources := document.sources[n := src]);
        return;
      }
      document := document.(sources := document.sources + [src]);
    }

    method DoRemoveSource(url: string)
      modifies this
      ensures document == ApplyDocument(old(document), RemoveSource(url))
    {
      var n := FindKey(document.sources, UrlOf, url);
      RemoveAt(document.sources, UrlOf, url, n);
      if n < |document.sources| {
        document := document.(sources := document.sources[..n] + document.sources[n + 1..]);
      }
    }

    /** The sorted source list: the sources of the array, by descending priority and
        then ascending URL.  When no URL repeats it is the listing of the table. */
    method ListSources() returns (r: seq<Source>)
      ensures IsOrdered(r) && multiset(r) == multiset(document.sources)
      ensures IsKeyed(document) ==> IsListingOf(r, TablesOf(document).sources)
    {
      hide ListsBefore, IsKeyed, TablesOf;
      var items := document.sources;
      r := [];
      for n := 0 to |items|
        invariant IsOrdered(r) && multiset(r) == multiset(items[..n])
      {
        assert items[..n + 1] == items[..n] + [items[n]];
        r := Insert(r, items[n]);
      }
      assert items[..|items|] == items;
      if IsKeyed(document) {
        SortedIsListing(document, r);
      }
    }

    method GetMeta(key: string) returns (r: Option<string>)
      ensures r == if key in TablesOf(document).meta then Some(TablesOf(document).meta[key]) else None
    {
      return if key in document.meta then Some(document.meta[key]) else None;
    }

    /** The entries of the JSON object, whose keys are kept in order. */
    method ListMeta() returns (r: seq<(string, string)>)
      ensures IsMetaListingOf(r, TablesOf(document).meta)
    {
      r := InKeyOrder(document.meta);
    }

    method DoSetMeta(key: string, value: string)
      modifies this
      ensures document == ApplyDocument(old(document), SetMeta(key, value))
    {
      document := document.(meta := document.meta[key := value]);
    }

    method DoDeleteMeta(key: string)
      modifies this
      ensures document == ApplyDocument(old(document), DeleteMeta(key))
    {
      document := document.(meta := document.meta - {key});
    }

    method DoClear()
      modifies this
      ensures document == ApplyDocument(old(document), Clear)
    {
      document := Document([], [], map[]);
    }
  }

  lemma SortedIsListing(d: Document, r: seq<Source>)
    requires IsKeyed(d) && IsOrdered(r) && multiset(r) == multiset(d.sources)
    ensures IsListingOf(r, TablesOf(d).sources)
  {
    hide ListsBefore;
    forall x: Source
      ensures x in r <==> x.url in TablesOf(d).sources && TablesOf(d).sources[x.url] == x
    {
      UniqueItemsAreTable(d.sources, UrlOf, x);
      assert x in r <==> x in multiset(r);
      assert x in d.sources <==> x in multiset(d.sources);
    }
    KeysStayUnique(d.sources, r);
    OrderedIsListed(r, multiset(r));
  }

  // A permutation of distinct URLs has distinct URLs.
  lemma KeysStayUnique(s: seq<Source>, r: seq<Source>)
    requires HasUniqueKeys(s, UrlOf) && multiset(r) == multiset(s)
    ensures forall i, j :: 0 <= i < j < |r| ==> r[i].url != r[j].url
  {
    forall i, j | 0 <= i < j < |r|
      ensures r[i].url != r[j].url
    {
      assert r[i] in multiset(r) && r[j] in multiset(r);
      SameKeySameItem(s, r[i], r[j]);
      CountsOnce(s, r[i]);
      CountsTwice(r, i, j);
    }
  }

  lemma SameKeySameItem(s: seq<Source>, x: Source, y: Source)
    requires HasUniqueKeys(s, UrlOf) && x in s && y in s
    ensures x.url == y.url ==> x == y
  {
    var a :| 0 <= a < |s| && s[a] == x;
    var b :| 0 <= b < |s| && s[b] == y;
    assert a != b ==> UrlOf(s[a]) != UrlOf(s[b]);
  }

  lemma CountsOnce(s: seq<Source>, x: Source)
    requires HasUniqueKeys(s, UrlOf) && x in s
    ensures multiset(s)[x] == 1
  {
    var a :| 0 <= a < |s| && s[a] == x;
    assert s == s[..a] + [x] + s[a + 1..];
    assert x !in s[..a] && x !in s[a + 1..] by {
      assert forall b :: 0 <= b < |s| && b != a ==> UrlOf(s[b]) != UrlOf(x);
    }
  }

  lemma CountsTwice(r: seq<Source>, i: nat, j: nat)
    requires i < j < |r|
    ensures r[i] == r[j] ==> multiset(r)[r[i]] >= 2
  {
    assert r == r[..i] + [r[i]] + r[i + 1..j] + [r[j]] + r[j + 1..];
  }

  /** SELECT ... ORDER BY priority DESC, url, over a table keyed by URL. */
  method SelectSources(table: map<string, Source>) returns (r: seq<Source>)
    requires forall url :: url in table ==> table[url].url == url
    ensures IsListingOf(r, table)
  {
    hide ListsBefore;
    r := [];
    var rest := table.Keys;
    while rest != {}
      invariant rest <= table.Keys && IsOrdered(r)
      invariant forall x :: x in r <==> x.url in table && x.url !in rest && table[x.url] == x
      invariant forall i, j :: 0 <= i < j < |r| ==> r[i].url != r[j].url
      decreases |rest|
    {
      var url :| url in rest;
      var next := Insert(r, table[url]);
      InsertedKeys(r, table[url], next);
      r := next;
      rest := rest - {url};
    }
    OrderedIsListed(r, multiset(r));
  }

  lemma InsertedKeys(r: seq<Source>, x: Source, next: seq<Source>)
    requires multiset(next) == multiset(r) + multiset{x}
    requires forall i, j :: 0 <= i < j < |r| ==> r[i].url != r[j].url
    requires forall y :: y in r ==> y.url != x.url
    ensures forall y :: y in next <==> y == x || y in r
    ensures forall i, j :: 0 <= i < j < |next| ==> next[i].url != next[j].url
  {
    assert multiset(r + [x]) == multiset(next);
    forall y
      ensures y in next <==> y == x || y in r
    {
      assert y in next <==> y in multiset(next);
      assert y in r <==> y in multiset(r);
    }
    KeysStayUnique(r + [x], next);
  }

  /** For the same history both backends list the same sources in the same order. */
  lemma BackendsListAlike(d: Document, ops: seq<Op>, json: seq<Source>, sql: seq<Source>)
    requires IsKeyed(d)
    requires IsListingOf(json, TablesOf(ApplyAllDocument(d, ops)).sources)
    requires IsListingOf(sql, ApplyAll(TablesOf(d), ops).sources)
    ensures json == sql
  {
    hide IsKeyed, TablesOf, IsListed;
    HistoryRefines(d, ops);
    ListingIsUnique(json, sql);
  }

  /** And the same meta entries: both list them by key. */
  lemma BackendsListMetaAlike(d: Document, ops: seq<Op>, json: seq<(string, string)>, sql: seq<(string, string)>)
    requires IsKeyed(d)
    requires IsMetaListingOf(json, TablesOf(ApplyAllDocument(d, ops)).meta)
    requires IsMetaListingOf(sql, ApplyAll(TablesOf(d), ops).meta)
    ensures json == sql
  {
    hide IsKeyed, TablesOf, IsMetaListingOf;
    HistoryRefines(d, ops);
    MetaListingIsUnique(json, sql, ApplyAll(TablesOf(d), ops).meta);
  }

  // ---- Where they differ -------------------------------------------------

  ghost predicate IsByService(s: seq<Account>) {
    forall i, j :: 0 <= i < j < |s| ==> Less(s[i].service, s[j].service)
  }

  // The rows of SELECT ... FROM accounts ORDER BY service.
  ghost predicate IsAccountListingOf(s: seq<Account>, table: map<string, Account>) {
    && IsByService(s)
    && forall x :: x in s <==> x.service in table && table[x.service] == x
  }

  /** Accounts come out of the JSON backend in array order, out of SQLite by service
      name: the listings agree exactly when the array happens to be in that order. */
  lemma AccountListingsAgreeIff(d: Document, sql: seq<Account>)
    requires IsKeyed(d) && IsAccountListingOf(sql, TablesOf(d).accounts)
    ensures d.accounts == sql <==> IsByService(d.accounts)
  {
    hide Less;
    if IsByService(d.accounts) {
      forall x
        ensures x in d.accounts <==> x in sql
      {
        UniqueItemsAreTable(d.accounts, ServiceOf, x);
      }
      ByServiceIsUnique(d.accounts, sql);
    }
  }

  lemma {:induction false} ByServiceIsUnique(s: seq<Account>, t: seq<Account>)
    requires IsByService(s) && IsByService(t)
    requires forall x :: x in s <==> x in t
    ensures s == t
  {
    hide Less;
    if s == [] {
      EmptyHasNoItems(t);
    } else {
      assert s[0] in t && t[0] in s;
      var i :| 0 <= i < |t| && t[i] == s[0];
      var j :| 0 <= j < |s| && s[j] == t[0];
      LessIsOrder(s[0].service, t[0].service, s[0].service);
      assert i == 0;
      forall x
        ensures x in s[1..] <==> x in t[1..]
      {
        RestByService(s, x);
        RestByService(t, x);
      }
      ByServiceIsUnique(s[1..], t[1..]);
    }
  }

  lemma RestByService(s: seq<Account>, x: Account)
    requires IsByService(s) && s != []
    ensures x in s[1..] <==> x in s && x != s[0]
  {
    LessIsOrder(s[0].service, s[0].service, s[0].service);
    hide Less;
    assert s == [s[0]] + s[1..];
    if i :| 0 <= i < |s[1..]| && s[1..][i] == x {
      assert Less(s[0].service, s[i + 1].service);
    }
  }

  /** And it need not: two upserts are enough. */
  lemma AccountListingsDiffer(sql: seq<Account>)
    requires var ops := [UpsertAccount(Account("b", "", "")), UpsertAccount(Account("a", "", ""))];
             IsAccountListingOf(sql, ApplyAll(EMPTY, ops).accounts)
    ensures var ops := [UpsertAccount(Account("b", "", "")), UpsertAccount(Account("a", "", ""))];
            ApplyAllDocument(Document([], [], map[]), ops).accounts != sql
  {
    var a, b := Account("a", "", ""), Account("b", "", "");
    var ops := [UpsertAccount(b), UpsertAccount(a)];
    var empty := Document([], [], map[]);
    var d := ApplyAllDocument(empty, ops);
    assert ops[..1] == [UpsertAccount(b)] && ops[..1][..0] == [];
    assert ApplyAllDocument(empty, ops[..1]).accounts == [b];
    assert ServiceOf(b) != ServiceOf(a) && [b][1..] == [];
    assert Upserted([b], ServiceOf, a) == [b] + Upserted([], ServiceOf, a) == [b, a];
    assert d == ApplyDocument(ApplyAllDocument(empty, ops[..1]), ops[1]);
    assert d.accounts == [b, a];
    HistoryRefines(empty, ops);
    AccountListingsAgreeIff(d, sql);
    assert !Less(d.accounts[0].service, d.accounts[1].service);
  }
}
