/** The in-memory cache of calendar texts, and its file format. */
module Cache {
  import opened Results
  import opened Clock
  import opened Text
  import opened Decimal

  datatype Entry = Entry(content: string, fetchedAt: int)

  type Store = map<string, Entry>

  predicate IsFresh(e: Entry, ttl: int, now: int) {
    now - e.fetchedAt < ttl
  }

  // Still usable when the network fails; a fresh entry is, too.
  predicate IsStale(e: Entry, ttl: int, staleTtl: int, now: int) {
    now - e.fetchedAt < ttl + staleTtl
  }

  predicate HasFresh(store: Store, ttl: int, url: string, now: int) {
    url in store && IsFresh(store[url], ttl, now)
  }

  predicate HasStale(store: Store, ttl: int, staleTtl: int, url: string, now: int) {
    url in store && IsStale(store[url], ttl, staleTtl, now)
  }

  // ---- The file: four lines an entry -------------------------------------

  const INT64_MIN := -0x8000_0000_0000_0000
  const INT64_MAX := 0x7fff_ffff_ffff_ffff
  const UINT64_MAX := 0xffff_ffff_ffff_ffff

  function EntryLines(url: string, e: Entry, hash: string -> nat): seq<string> {
    [url, Print(hash(e.content)), PrintInt(WholeSeconds(e.fetchedAt)), e.content]
  }

  function FileLines(order: seq<string>, store: Store, hash: string -> nat): seq<string>
    requires forall url :: url in order ==> url in store
  {
    if order == [] then []
    else
      var last := order[|order| - 1];
      FileLines(order[..|order| - 1], store, hash) + EntryLines(last, store[last], hash)
  }

  lemma FileLinesGrow(order: seq<string>, url: string, store: Store, hash: string -> nat)
    requires forall u :: u in order + [url] ==> u in store
    ensures FileLines(order + [url], store, hash)
         == FileLines(order, store, hash) + EntryLines(url, store[url], hash)
  {
    assert (order + [url])[..|order|] == order;
  }

  // The URLs of the store, in the order of the map.
  ghost predicate IsOrderOf(order: seq<string>, store: Store) {
    (forall url :: url in order <==> url in store) && IsAscending(order)
  }

  /** The text of the cache file: the entries in ascending order of URL. */
  ghost predicate IsFileOf(text: string, store: Store, hash: string -> nat) {
    exists order :: IsOrderOf(order, store) && text == Terminated(FileLines(order, store, hash), '\n')
  }

  /** A cache has one file. */
  lemma FileIsUnique(text: string, other: string, store: Store, hash: string -> nat)
    requires IsFileOf(text, store, hash) && IsFileOf(other, store, hash)
    ensures text == other
  {
    var a :| IsOrderOf(a, store) && text == Terminated(FileLines(a, store, hash), '\n');
    var b :| IsOrderOf(b, store) && other == Terminated(FileLines(b, store, hash), '\n');
    AscendingIsUnique(a, b);
  }

  // The loading loop: what the next line is, and what has been read.
  datatype Due = Url | Hash | Time | Content

  datatype Loader = Loader(due: Due, url: string, time: int, store: Store)

  const LOADER := Loader(Url, "", 0, map[])

  function LoadLine(l: Loader, line: string): Result<Loader> {
    match l.due
    case Url => Ok(l.(due := Hash, url := line))
    case Hash =>
      var hash :- ReadNumber(line, -UINT64_MAX, UINT64_MAX);
      Ok(l.(due := Time))
    case Time =>
      var time :- ReadNumber(line, INT64_MIN, INT64_MAX);
      Ok(l.(due := Content, time := time))
    case Content => Ok(l.(due := Url, store := l.store[l.url := Entry(line, l.time * TICKS)]))
  }

  function LoadLines(lines: seq<string>): Result<Loader> {
    if lines == [] then Ok(LOADER)
    else
      var l :- LoadLines(lines[..|lines| - 1]);
      LoadLine(l, lines[|lines| - 1])
  }

  lemma {:induction false} FirstBadLineStays(lines: seq<string>, n: nat)
    requires n <= |lines| && LoadLines(lines[..n]).Err?
    ensures LoadLines(lines) == LoadLines(lines[..n])
    decreases |lines|
  {
    if n < |lines| {
      assert lines[..|lines| - 1][..n] == lines[..n];
      FirstBadLineStays(lines[..|lines| - 1], n);
    } else {
      assert lines[..n] == lines;
    }
  }

  // The entries of the lines before the one that throws.
  ghost predicate IsStoreBeforeError(store: Store, lines: seq<string>) {
    exists n: nat :: n < |lines| && LoadLines(lines[..n]).Ok? && LoadLines(lines[..n + 1]).Err?
                     && store == LoadLines(lines[..n]).value.store
  }

  // Line i is where a number is due, and is none.
  predicate IsBadAt(lines: seq<string>, i: nat) {
    i < |lines| && if i % 4 == 1 then ReadNumber(lines[i], -UINT64_MAX, UINT64_MAX).Err?
                   else i % 4 == 2 && ReadNumber(lines[i], INT64_MIN, INT64_MAX).Err?
  }

  // Group k of four lines is whole, and is the last that begins with the URL.
  ghost predicate IsLastGroup(lines: seq<string>, url: string, k: nat) {
    && 4 * k + 3 < |lines| && lines[4 * k] == url
    && forall j: nat :: k < j && 4 * j + 3 < |lines| ==> lines[4 * j] != url
  }

  // The entry of group k.
  function EntryOfGroup(lines: seq<string>, k: nat): Result<Entry>
    requires 4 * k + 3 < |lines|
  {
    var time :- ReadNumber(lines[4 * k + 2], INT64_MIN, INT64_MAX);
    Ok(Entry(lines[4 * k + 3], time * TICKS))
  }

  class IcsCache {
    var store: Store
    var ttl: int
    var staleTtl: int

    constructor (ttl: int, staleTtl: int)
      ensures store == map[] && this.ttl == ttl && this.staleTtl == staleTtl
    {
      store, this.ttl, this.staleTtl := map[], ttl, staleTtl;
    }

    /** Fills `out` and returns true only for a fresh entry. */
    method Get(url: string, now: int, before: string) returns (found: bool, out: string)
      ensures found <==> HasFresh(store, ttl, url, now)
      ensures out == if found then store[url].content else before
    {
      if url !in store || !IsFresh(store[url], ttl, now) {
        return false, before;
      }
      return true, store[url].content;
    }

    method GetStale(url: string, now: int, before: string) returns (found: bool, out: string)
      ensures found <==> HasStale(store, ttl, staleTtl, url, now)
      ensures out == if found then store[url].content else before
    {
      if url !in store || !IsStale(store[url], ttl, staleTtl, now) {
        return false, before;
      }
      return true, store[url].content;
    }

    method Put(url: string, content: string, now: int)
      modifies this`store
      ensures store == old(store)[url := Entry(content, now)]
    {
      store := store[url := Entry(content, now)];
    }

    method Remove(url: string)
      modifies this`store
      ensures store == old(store) - {url}
    {
      store := store - {url};
    }

    method Clear()
      modifies this`store
      ensures store == map[]
    {
      store := map[];
    }

    method Save(hash: string -> nat) returns (text: string)
      ensures IsFileOf(text, store, hash)
    {
      text := "";
      ghost var order: seq<string> := [];
      assert text == Terminated(FileLines(order, store, hash), '\n');
      hide EntryLines, FileLines, Terminated, Less;
      var rest := store.Keys;
      while rest != {}
        invariant rest <= store.Keys && IsAscending(order)
        invariant forall url :: url in order <==> url in store && url !in rest
        invariant forall url, next :: url in order && next in rest ==> Less(url, next)
        invariant text == Terminated(FileLines(order, store, hash), '\n')
        decreases |rest|
      {
        LeastExists(rest);
        var url :| url in rest && forall next :: next in rest ==> next == url || Less(url, next);
        var lines := EntryLines(url, store[url], hash);
        FileLinesGrow(order, url, store, hash);
        TerminatedSplits(FileLines(order, store, hash), lines, '\n');
        text := text + Terminated(lines, '\n');
        rest, order := rest - {url}, order + [url];
      }
    }

    /** Reads a cache file; a line that is not a number where one is due throws
        and leaves the entries read before it. */
    method Load(text: string) returns (r: Result<bool>)
      modifies this`store
      ensures match LoadLines(Lines(text))
              case Ok(l) => r == Ok(true) && store == l.store
              case Err(e) => r == Err(e) && IsStoreBeforeError(store, Lines(text))
    {
      hide Lines, LoadLine;
      var lines := Lines(text);
      store := map[];
      var due, url, time := Url, "", 0;
      for n := 0 to |lines|
        invariant LoadLines(lines[..n]) == Ok(Loader(due, url, time, store))
      {
        assert lines[..n + 1][..n] == lines[..n];
        var next := ReadLine(Loader(due, url, time, store), lines[n]);
        if next.Err? {
          FirstBadLineStays(lines, n + 1);
          assert LoadLines(lines[..n]).Ok? && LoadLines(lines[..n + 1]).Err?;
          return Err(next.error);
        }
        due, url, time, store := next.value.due, next.value.url, next.value.time, next.value.store;
      }
      assert lines[..|lines|] == lines;
      return Ok(true);
    }
  }

  method ReadLine(l: Loader, line: string) returns (r: Result<Loader>)
    ensures r == LoadLine(l, line)
  {
    match l.due {
      case Url =>
        return Ok(l.(url := line, due := Hash));
      case Hash =>
        var hash :- ReadNumber(line, -UINT64_MAX, UINT64_MAX);
        return Ok(l.(due := Time));
      case Time =>
        var time :- ReadNumber(line, INT64_MIN, INT64_MAX);
        return Ok(l.(time := time, due := Content));
      case Content =>
        return Ok(l.(store := l.store[l.url := Entry(line, l.time * TICKS)], due := Url));
    }
  }

  // ---- Saving and loading ------------------------------------------------

  // The entry as it comes back: its time cut to whole seconds.
  function Restored(e: Entry): Entry {
    Entry(e.content, WholeSeconds(e.fetchedAt) * TICKS)
  }

  function RestoredStore(store: Store): Store {
    map url | url in store :: Restored(store[url])
  }

  ghost predicate HasNoNewlines(store: Store) {
    forall url :: url in store ==> '\n' !in url && '\n' !in store[url].content
  }

  // Times and hashes that the file's number types hold.
  ghost predicate IsSavable(store: Store, hash: string -> nat) {
    forall url :: url in store ==>
      INT64_MIN <= WholeSeconds(store[url].fetchedAt) <= INT64_MAX && hash(store[url].content) <= UINT64_MAX
  }

  lemma LoadEntry(lines: seq<string>, url: string, e: Entry, hash: string -> nat)
    requires LoadLines(lines).Ok? && LoadLines(lines).value.due == Url
    requires INT64_MIN <= WholeSeconds(e.fetchedAt) <= INT64_MAX && hash(e.content) <= UINT64_MAX
    ensures var l := LoadLines(lines + EntryLines(url, e, hash));
            l.Ok? && l.value.due == Url && l.value.store == LoadLines(lines).value.store[url := Restored(e)]
  {
    var four := EntryLines(url, e, hash);
    var a, b, c := lines + [four[0]], lines + [four[0]] + [four[1]], lines + [four[0]] + [four[1]] + [four[2]];
    NumbersReadBack(e, hash);
    hide ReadNumber, WholeSeconds, PrintInt, Print, LoadLines;
    LoadAppend(lines, four[0]);
    LoadAppend(a, four[1]);
    LoadAppend(b, four[2]);
    LoadAppend(c, four[3]);
    assert lines + four == c + [four[3]];
  }

  lemma NumbersReadBack(e: Entry, hash: string -> nat)
    requires INT64_MIN <= WholeSeconds(e.fetchedAt) <= INT64_MAX && hash(e.content) <= UINT64_MAX
    ensures ReadNumber(Print(hash(e.content)), -UINT64_MAX, UINT64_MAX) == Ok(hash(e.content))
    ensures ReadNumber(PrintInt(WholeSeconds(e.fetchedAt)), INT64_MIN, INT64_MAX) == Ok(WholeSeconds(e.fetchedAt))
  {
    hide ReadNumber, WholeSeconds, Print;
    var h := hash(e.content);
    assert Print(h) == PrintInt(h);
    ReadPrinted(h, -UINT64_MAX, UINT64_MAX);
    ReadPrinted(WholeSeconds(e.fetchedAt), INT64_MIN, INT64_MAX);
  }

  lemma LoadAppend(lines: seq<string>, line: string)
    ensures LoadLines(lines + [line])
         == match LoadLines(lines) case Ok(l) => LoadLine(l, line) case Err(e) => Err(e)
  {
  }

  // The restored entries of some of the URLs.
  function RestoredPart(order: seq<string>, store: Store): Store {
    map url | url in store && url in order :: Restored(store[url])
  }

  lemma RestoredGrows(order: seq<string>, url: string, store: Store)
    requires url in store
    ensures RestoredPart(order + [url], store) == RestoredPart(order, store)[url := Restored(store[url])]
  {
    hide Restored;
  }

  lemma RestoredNothing(store: Store)
    ensures RestoredPart([], store) == map[]
  {
  }

  lemma {:induction false} LoadFile(order: seq<string>, store: Store, hash: string -> nat)
    requires IsSavable(store, hash) && forall url :: url in order ==> url in store
    ensures var l := LoadLines(FileLines(order, store, hash));
            l.Ok? && l.value.due == Url && l.value.store == RestoredPart(order, store)
  {
    hide EntryLines, WholeSeconds, LoadLine, RestoredPart, Restored;
    if order == [] {
      assert LoadLines([]) == Ok(LOADER);
      RestoredNothing(store);
    } else {
      var most, last := order[..|order| - 1], order[|order| - 1];
      assert order == most + [last] && last in order;
      LoadFile(most, store, hash);
      FileLinesGrow(most, last, store, hash);
      RestoredGrows(most, last, store);
      hide FileLines, LoadLines;
      LoadEntry(FileLines(most, store, hash), last, store[last], hash);
    }
  }

  lemma {:induction false} FileLinesArePlain(order: seq<string>, store: Store, hash: string -> nat)
    requires HasNoNewlines(store) && forall url :: url in order ==> url in store
    ensures forall i :: 0 <= i < |FileLines(order, store, hash)| ==> '\n' !in FileLines(order, store, hash)[i]
  {
    if order != [] {
      var last := order[|order| - 1];
      assert last in order;
      FileLinesArePlain(order[..|order| - 1], store, hash);
      NumbersArePlain(hash(store[last].content));
      NumbersArePlain(WholeSeconds(store[last].fetchedAt));
    }
  }

  lemma NumbersArePlain(n: int)
    ensures '\n' !in PrintInt(n) && (n >= 0 ==> '\n' !in Print(n))
  {
  }

  // Whatever is loaded came from single lines.
  lemma {:induction false} LoadedIsPlain(lines: seq<string>)
    requires forall i :: 0 <= i < |lines| ==> '\n' !in lines[i]
    requires LoadLines(lines).Ok?
    ensures HasNoNewlines(LoadLines(lines).value.store) && '\n' !in LoadLines(lines).value.url
  {
    hide ReadNumber;
    if lines != [] {
      LoadedIsPlain(lines[..|lines| - 1]);
    }
  }

  /** Loading a saved cache restores every URL and content, with fetch times cut to
      whole seconds, exactly when no URL and no content has a line break. */
  lemma LoadRestoresIff(text: string, store: Store, hash: string -> nat)
    requires IsFileOf(text, store, hash) && IsSavable(store, hash)
    ensures var l := LoadLines(Lines(text));
            l.Ok? && l.value.store == RestoredStore(store) <==> HasNoNewlines(store)
  {
    hide EntryLines, WholeSeconds, LoadLine, Terminated, Pieces;
    var order :| IsOrderOf(order, store) && text == Terminated(FileLines(order, store, hash), '\n');
    var file := FileLines(order, store, hash);
    var lines := Lines(text);
    if HasNoNewlines(store) {
      FileLinesArePlain(order, store, hash);
      PiecesOfTerminated(file, '\n');
      LoadFile(order, store, hash);
    } else if LoadLines(lines).Ok? {
      LoadedIsPlain(lines);
      var loaded := LoadLines(lines).value.store;
      if loaded == RestoredStore(store) {
        forall url | url in store
          ensures '\n' !in url && '\n' !in store[url].content
        {
          assert url in loaded && loaded[url].content == store[url].content;
        }
      }
    }
  }

  /** An entry fetched since the epoch never looks younger after reloading: it is
      fresh, or still usable, only if it was. */
  lemma RestoredIsNoYounger(e: Entry, ttl: int, staleTtl: int, now: int)
    requires e.fetchedAt >= 0
    ensures IsFresh(Restored(e), ttl, now) ==> IsFresh(e, ttl, now)
    ensures IsStale(Restored(e), ttl, staleTtl, now) ==> IsStale(e, ttl, staleTtl, now)
    ensures 0 <= e.fetchedAt - Restored(e).fetchedAt < TICKS
  {
  }

  // ---- Loading any file --------------------------------------------------

  function DueAt(n: nat): Due {
    if n % 4 == 0 then Url else if n % 4 == 1 then Hash else if n % 4 == 2 then Time else Content
  }

  // What is due, and what has been read of the group that is not whole.
  ghost predicate IsLoaderAt(l: Loader, lines: seq<string>) {
    var m := |lines| % 4;
    && l.due == DueAt(|lines|)
    && (m > 0 ==> l.url == lines[|lines| - m])
    && (m == 3 ==> ReadNumber(lines[|lines| - 1], INT64_MIN, INT64_MAX) == Ok(l.time))
  }

  /** A file loads exactly when every second line of four is a number that fits the hash
      and every third one that fits the time. */
  lemma {:induction false} LoadsIff(lines: seq<string>)
    ensures LoadLines(lines).Ok? <==> forall i: nat :: !IsBadAt(lines, i)
    ensures LoadLines(lines).Ok? ==> IsLoaderAt(LoadLines(lines).value, lines)
  {
    hide ReadNumber;
    if lines != [] {
      var n := |lines| - 1;
      LoadsIff(lines[..n]);
      BadGrows(lines);
    }
  }

  lemma BadGrows(lines: seq<string>)
    requires lines != []
    ensures var n := |lines| - 1;
            (exists i: nat :: IsBadAt(lines, i)) <==> IsBadAt(lines, n) || exists i: nat :: IsBadAt(lines[..n], i)
  {
    hide ReadNumber;
    var n := |lines| - 1;
    if i: nat :| IsBadAt(lines, i) {
      assert i < n ==> IsBadAt(lines[..n], i);
    }
    if i: nat :| IsBadAt(lines[..n], i) {
      assert IsBadAt(lines, i);
    }
  }

  // The store has what the last whole group of the URL says, and else nothing for it.
  ghost predicate HoldsLastGroup(store: Store, lines: seq<string>, url: string) {
    && (url in store <==> exists k: nat :: IsLastGroup(lines, url, k))
    && forall k: nat :: IsLastGroup(lines, url, k) ==> EntryOfGroup(lines, k) == Ok(store[url])
  }

  // The groups before the last line are the same without it.
  lemma GroupsStay(lines: seq<string>, most: seq<string>, url: string)
    requires lines != [] && most == lines[..|lines| - 1]
    requires |lines| % 4 == 0 ==> lines[|lines| - 4] != url
    ensures forall k: nat :: IsLastGroup(lines, url, k) <==> IsLastGroup(most, url, k)
    ensures forall k: nat :: IsLastGroup(lines, url, k) ==> EntryOfGroup(lines, k) == EntryOfGroup(most, k)
    ensures (exists k: nat :: IsLastGroup(lines, url, k)) <==> exists k: nat :: IsLastGroup(most, url, k)
  {
    hide ReadNumber;
    forall k: nat
      ensures IsLastGroup(lines, url, k) <==> IsLastGroup(most, url, k)
    {
      assert forall j: nat :: 4 * j + 3 < |most| ==> most[4 * j] == lines[4 * j];
      assert forall j: nat :: 4 * j + 3 == |most| ==> 4 * j == |lines| - 4;
    }
    if k: nat :| IsLastGroup(most, url, k) {
      assert IsLastGroup(lines, url, k);
    }
  }

  lemma GroupEnds(lines: seq<string>, url: string)
    requires |lines| >= 4 && |lines| % 4 == 0 && lines[|lines| - 4] == url
    ensures forall k: nat :: IsLastGroup(lines, url, k) <==> k == |lines| / 4 - 1
  {
    forall k: nat
      ensures IsLastGroup(lines, url, k) <==> k == |lines| / 4 - 1
    {
      var last := |lines| / 4 - 1;
      assert 4 * last == |lines| - 4;
      assert k < last ==> lines[4 * last] == url;
    }
  }

  // The line that ends a whole group, and any other line.
  lemma GroupIsHeld(l: Loader, next: Loader, lines: seq<string>, url: string)
    requires lines != [] && IsLoaderAt(l, lines[..|lines| - 1]) && LoadLine(l, lines[|lines| - 1]) == Ok(next)
    requires |lines| % 4 == 0 && lines[|lines| - 4] == url
    ensures HoldsLastGroup(next.store, lines, url)
  {
    hide ReadNumber;
    var n, last := |lines| - 1, |lines| / 4 - 1;
    GroupEnds(lines, url);
    assert 4 * last + 3 == n && IsLastGroup(lines, url, last);
    assert l.due == Content && l.url == url;
    assert EntryOfGroup(lines, last) == Ok(Entry(lines[n], l.time * TICKS));
  }

  lemma OthersAreKept(l: Loader, next: Loader, lines: seq<string>, url: string)
    requires lines != [] && IsLoaderAt(l, lines[..|lines| - 1]) && LoadLine(l, lines[|lines| - 1]) == Ok(next)
    requires |lines| % 4 == 0 ==> lines[|lines| - 4] != url
    requires HoldsLastGroup(l.store, lines[..|lines| - 1], url)
    ensures HoldsLastGroup(next.store, lines, url)
  {
    hide ReadNumber;
    GroupsStay(lines, lines[..|lines| - 1], url);
    assert l.due == Content ==> l.url == lines[|lines| - 4] != url;
    hide IsLastGroup, EntryOfGroup, IsLoaderAt;
    assert url in next.store <==> url in l.store;
    assert url in l.store ==> next.store[url] == l.store[url];
  }

  /** What a file that loads holds for a URL: content and time of the last whole group of
      four lines that begins with it; lines left over count for nothing. */
  lemma {:induction false} LoadHoldsLastGroups(lines: seq<string>, url: string)
    requires LoadLines(lines).Ok?
    ensures HoldsLastGroup(LoadLines(lines).value.store, lines, url)
  {
    hide LoadLine, HoldsLastGroup, IsLoaderAt;
    if lines == [] {
      NothingIsHeld(url);
    } else {
      var n := |lines| - 1;
      LoadHoldsLastGroups(lines[..n], url);
      LoadsIff(lines[..n]);
      var l, next := LoadLines(lines[..n]).value, LoadLines(lines).value;
      if |lines| % 4 == 0 && lines[|lines| - 4] == url {
        GroupIsHeld(l, next, lines, url);
      } else {
        OthersAreKept(l, next, lines, url);
      }
    }
  }

  lemma NothingIsHeld(url: string)
    ensures HoldsLastGroup(LOADER.store, [], url) && LoadLines([]) == Ok(LOADER)
  {
  }
}
