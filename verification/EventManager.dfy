/** Loading calendars: fresh cache first, then the network, then stale cache. */
module EventManager {
  import opened Results
  import opened Clock
  import opened Text
  import opened DateTime
  import opened Events
  import opened Selection
  import opened Pipeline
  import opened PipelineLaws
  import opened Cache

  // The cache in use, if there is one, and its limits.
  datatype Limits = Limits(hasCache: bool, ttl: int, staleTtl: int)

  /** What the world shows one load of one URL: the response (empty when the fetch
      failed, unused when it is not asked) and the clock at each reading. */
  datatype Reading = Reading(getAt: int, response: string, putAt: int, staleAt: int, parseAt: int)

  // The cache afterwards and the text to parse; empty when there is none.
  datatype Loaded = Loaded(store: Store, text: string)

  predicate IsHit(c: Limits, store: Store, url: string, o: Reading) {
    c.hasCache && HasFresh(store, c.ttl, url, o.getAt)
  }

  function LoadUrl(c: Limits, store: Store, url: string, o: Reading): Loaded {
    var hit := IsHit(c, store, url, o);
    var text := if hit then store[url].content else o.response;
    var next := if !hit && c.hasCache && text != "" then store[url := Entry(text, o.putAt)] else store;
    if text == "" && c.hasCache && HasStale(next, c.ttl, c.staleTtl, url, o.staleAt)
    then Loaded(next, next[url].content)
    else Loaded(next, text)
  }

  // The events of one text, as ParseCalendarAt selects them.
  function ParsedEvents(text: string, at: int, settings: Settings, zone: int): Result<multiset<Event>> {
    var raws :- RawEventsOf(text, zone);
    Ok(SelectedEvents(raws, ComputeWindow(at, settings, zone), zone))
  }

  /** A load of all URLs: the cache, the events gathered, and the exception that
      ended it early, if one did. */
  datatype LoadResult = LoadResult(store: Store, events: multiset<Event>, error: Option<Error>)

  // The load with one more URL: its text, parsed at a time.
  function LoadNext(before: LoadResult, next: Loaded, at: int, settings: Settings, zone: int): LoadResult {
    if next.text == "" then LoadResult(next.store, before.events, None)
    else match ParsedEvents(next.text, at, settings, zone)
      case Ok(events) => LoadResult(next.store, before.events + events, None)
      case Err(e) => LoadResult(next.store, before.events, Some(e))
  }

  function LoadAll(c: Limits, store: Store, urls: seq<string>, world: seq<Reading>, settings: Settings, zone: int)
    : LoadResult
    requires |world| == |urls|
  {
    if urls == [] then LoadResult(store, multiset{}, None)
    else
      var before := LoadAll(c, store, urls[..|urls| - 1], world[..|urls| - 1], settings, zone);
      if before.error.Some? then before
      else
        var o := world[|urls| - 1];
        LoadNext(before, LoadUrl(c, before.store, urls[|urls| - 1], o), o.parseAt, settings, zone)
  }

  lemma {:induction false} FirstErrorEndsLoad(c: Limits, store: Store, urls: seq<string>, world: seq<Reading>,
                                              settings: Settings, zone: int, n: nat)
    requires |world| == |urls| && n <= |urls|
    requires LoadAll(c, store, urls[..n], world[..n], settings, zone).error.Some?
    ensures LoadAll(c, store, urls, world, settings, zone) == LoadAll(c, store, urls[..n], world[..n], settings, zone)
    decreases |urls|
  {
    hide LoadUrl, ParsedEvents;
    if n < |urls| {
      assert urls[..|urls| - 1][..n] == urls[..n] && world[..|urls| - 1][..n] == world[..n];
      FirstErrorEndsLoad(c, store, urls[..|urls| - 1], world[..|urls| - 1], settings, zone, n);
    } else {
      assert urls[..n] == urls && world[..n] == world;
    }
  }

  class EventManager {
    var cache: IcsCache?
    var settings: Settings
    // A std::set: distinct, in ascending order.
    var urls: seq<string>
    var manualEvents: seq<Event>
    var fetchedEvents: seq<Event>
    const zone: int

    constructor (cache: IcsCache?, settings: Settings, zone: int)
      ensures this.cache == cache && this.settings == settings && this.zone == zone
      ensures urls == [] && IsAscending(urls) && manualEvents == [] && fetchedEvents == []
    {
      this.cache, this.settings, this.zone := cache, settings, zone;
      urls, manualEvents, fetchedEvents := [], [], [];
    }

    /** Registers a URL: the registered ones stay distinct and in ascending order. */
    method AddCalendarUrl(url: string)
      requires IsAscending(urls)
      modifies this`urls
      ensures IsAscending(urls) && forall u :: u in urls <==> u in old(urls) || u == url
    {
      urls := InsertAscending(urls, url);
    }

    method AddEvent(ev: Event)
      modifies this`manualEvents
      ensures manualEvents == old(manualEvents) + [ev]
    {
      manualEvents := manualEvents + [ev];
    }

    ghost function LimitsOf(): Limits
      reads this, cache
    {
      if cache == null then Limits(false, 0, 0) else Limits(true, cache.ttl, cache.staleTtl)
    }

    ghost function StoreOf(): Store
      reads this, cache
    {
      if cache == null then map[] else cache.store
    }

    /** One URL of the loading loop, up to the text to parse. */
    method FetchText(url: string, o: Reading) returns (content: string)
      modifies if cache == null then {} else {cache}
      ensures cache != null ==> cache.ttl == old(cache.ttl) && cache.staleTtl == old(cache.staleTtl)
      ensures Loaded(StoreOf(), content) == LoadUrl(old(LimitsOf()), old(StoreOf()), url, o)
    {
      content := "";
      var hit := false;
      if cache != null {
        hit, content := cache.Get(url, o.getAt, content);
      }
      if !hit {
        content := o.response;
        if cache != null && content != "" {
          cache.Put(url, content, o.putAt);
        }
      }
      if content == "" && cache != null {
        var stale;
        stale, content := cache.GetStale(url, o.staleAt, content);
      }
    }

    /** Replaces the fetched events by a load of every URL.  An exception from the
        parser ends the loop, with what was gathered before it. */
    method LoadFromSources(world: seq<Reading>) returns (r: Result<bool>)
      requires |world| == |urls|
      modifies this`fetchedEvents, if cache == null then {} else {cache}
      ensures cache != null ==> cache.ttl == old(cache.ttl) && cache.staleTtl == old(cache.staleTtl)
      ensures var l := LoadAll(old(LimitsOf()), old(StoreOf()), urls, world, settings, zone);
              && StoreOf() == l.store && multiset(fetchedEvents) == l.events
              && r == match l.error case None => Ok(true) case Some(e) => Err(e)
    {
      hide LoadUrl, ParsedEvents;
      fetchedEvents := [];
      ghost var c, start := LimitsOf(), StoreOf();
      for n := 0 to |urls|
        invariant c == LimitsOf()
        invariant LoadAll(c, start, urls[..n], world[..n], settings, zone)
               == LoadResult(StoreOf(), multiset(fetchedEvents), None)
      {
        assert urls[..n + 1][..n] == urls[..n] && world[..n + 1][..n] == world[..n];
        ghost var all := LoadAll(c, start, urls[..n + 1], world[..n + 1], settings, zone);
        var content := FetchText(urls[n], world[n]);
        if content == "" {
          continue;
        }
        var parsed := Parse(content, world[n].parseAt);
        if parsed.Err? {
          assert all == LoadResult(StoreOf(), multiset(fetchedEvents), Some(parsed.error));
          FirstErrorEndsLoad(c, start, urls, world, settings, zone, n + 1);
          return Err(parsed.error);
        }
        fetchedEvents := fetchedEvents + parsed.value;
      }
      assert urls[..|urls|] == urls && world[..|urls|] == world;
      return Ok(true);
    }

    /** The parser facade, with the manager's settings. */
    method Parse(content: string, at: int) returns (r: Result<seq<Event>>)
      ensures match ParsedEvents(content, at, settings, zone)
              case Ok(events) => r.Ok? && SortedByStart(r.value) && multiset(r.value) == events
              case Err(e) => r == Err(e)
    {
      hide RawEventsOf, SelectedEvents, ComputeWindow;
      r := ParseCalendarAt(content, at, settings, zone);
    }

    /** The filter over all events, and its sort. */
    method SelectNext(now: int, w: Window) returns (selected: seq<Event>)
      ensures SortedByStart(selected)
      ensures IsFiltered(multiset(selected), multiset(manualEvents) + multiset(fetchedEvents), now, w)
    {
      hide IsNext;
      var all := manualEvents + fetchedEvents;
      selected := [];
      for n := 0 to |all|
        invariant IsFiltered(multiset(selected), multiset(all[..n]), now, w)
      {
        assert all[..n + 1] == all[..n] + [all[n]];
        NextIs(all[n], now, w);
        if InWindow(all[n].start, w) && all[n].end * TICKS > now {
          selected := selected + [all[n]];
        }
      }
      assert all[..|all|] == all;
      selected := SortByStart(selected);
    }

    /** The manual and fetched events that start in the window and are not over,
        in ascending order of start. */
    method GetNextEvents(now: int, world: seq<Reading>) returns (r: Result<seq<Event>>)
      requires |world| == |urls|
      modifies this`fetchedEvents, if cache == null then {} else {cache}
      ensures var l := LoadAll(old(LimitsOf()), old(StoreOf()), urls, world, settings, zone);
              && StoreOf() == l.store && multiset(fetchedEvents) == l.events
              && match l.error
                 case Some(e) => r == Err(e)
                 case None =>
                   && r.Ok? && SortedByStart(r.value)
                   && IsFiltered(multiset(r.value), multiset(manualEvents) + l.events, now,
                                 ComputeWindow(now, settings, zone))
      ensures r.Ok? ==>
        ((exists e: Event :: e in multiset(r.value) && e.status == Canceled)
         <==> HasCanceled(multiset(manualEvents), now, ComputeWindow(now, settings, zone)))
    {
      hide LoadAll, ComputeWindow, IsNext, HasCanceled;
      var loaded := LoadFromSources(world);
      if loaded.Err? {
        return Err(loaded.error);
      }
      var w := ComputeWindow(now, settings, zone);
      var selected := SelectNext(now, w);
      NoneLoadedIsCanceled(old(LimitsOf()), old(StoreOf()), urls, world, settings, zone);
      CanceledIsManual(multiset(selected), multiset(manualEvents), multiset(fetchedEvents), now, w);
      return Ok(selected);
    }
  }

  // Exactly the events of `all` that are next, each as often as it is there.
  ghost predicate IsFiltered(selected: multiset<Event>, all: multiset<Event>, now: int, w: Window) {
    forall e: Event :: selected[e] == if IsNext(e, now, w) then all[e] else 0
  }

  // Starts in the window and ends after now.
  predicate IsNext(e: Event, now: int, w: Window) {
    w.start <= e.start <= w.deadline && e.start != NO_TIME && now < e.end * TICKS
  }

  lemma NextIs(e: Event, now: int, w: Window)
    ensures IsNext(e, now, w) <==> InWindow(e.start, w) && e.end * TICKS > now
  {
  }

  // ---- Cancelled events --------------------------------------------------

  /** No fetched event is cancelled. */
  lemma {:induction false} LoadedIsNotCanceled(c: Limits, store: Store, urls: seq<string>, world: seq<Reading>,
                                               settings: Settings, zone: int, e: Event)
    requires |world| == |urls| && e in LoadAll(c, store, urls, world, settings, zone).events
    ensures e.status != Canceled
    decreases |urls|
  {
    hide LoadUrl, SelectedEvents, RawEventsOf, ComputeWindow;
    var m := |urls| - 1;
    var before := LoadAll(c, store, urls[..m], world[..m], settings, zone);
    if e in before.events {
      LoadedIsNotCanceled(c, store, urls[..m], world[..m], settings, zone, e);
    } else {
      var o := world[m];
      var text := LoadUrl(c, before.store, urls[m], o).text;
      SelectedIsNotCanceled(RawEventsOf(text, zone).value, ComputeWindow(o.parseAt, settings, zone), zone, e);
    }
  }

  lemma NoneLoadedIsCanceled(c: Limits, store: Store, urls: seq<string>, world: seq<Reading>,
                             settings: Settings, zone: int)
    requires |world| == |urls|
    ensures forall e: Event :: e in LoadAll(c, store, urls, world, settings, zone).events ==> e.status != Canceled
  {
    hide LoadAll;
    forall e: Event | e in LoadAll(c, store, urls, world, settings, zone).events
      ensures e.status != Canceled
    {
      LoadedIsNotCanceled(c, store, urls, world, settings, zone, e);
    }
  }

  ghost predicate HasCanceled(events: multiset<Event>, now: int, w: Window) {
    exists e: Event :: e in events && e.status == Canceled && IsNext(e, now, w)
  }

  // The selection filters what is next, so a cancelled event in it is a manual one.
  lemma CanceledIsManual(selected: multiset<Event>, manual: multiset<Event>, fetched: multiset<Event>,
                         now: int, w: Window)
    requires IsFiltered(selected, manual + fetched, now, w)
    requires forall e: Event :: e in fetched ==> e.status != Canceled
    ensures (exists e: Event :: e in selected && e.status == Canceled) <==> HasCanceled(manual, now, w)
  {
    hide IsNext;
    if e: Event :| e in selected && e.status == Canceled {
      assert selected[e] > 0;
      assert (manual + fetched)[e] > 0;
      assert e in manual;
    }
    if HasCanceled(manual, now, w) {
      var e: Event :| e in manual && e.status == Canceled && IsNext(e, now, w);
      assert selected[e] == (manual + fetched)[e] > 0;
    }
  }
}
