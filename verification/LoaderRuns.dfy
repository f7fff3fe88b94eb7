/** Safety of the loader over whole runs: any sequence of loads of any URLs, the
    loads that an exception cut short included. */
module LoaderRuns {
  import opened Results
  import opened Events
  import opened Selection
  import opened Pipeline
  import opened Cache
  import opened EventManager

  // One URL loaded once.
  datatype LoadStep = LoadStep(url: string, o: Reading)

  /** The cache after a run that starts with an empty cache. */
  function RunStore(c: Limits, run: seq<LoadStep>): Store {
    if run == [] then map[]
    else
      var last := run[|run| - 1];
      LoadUrl(c, RunStore(c, run[..|run| - 1]), last.url, last.o).store
  }

  // The cache that step k finds, and the text it hands to the parser.
  function StoreAt(c: Limits, run: seq<LoadStep>, k: nat): Store
    requires k <= |run|
  {
    RunStore(c, run[..k])
  }

  function TextAt(c: Limits, run: seq<LoadStep>, k: nat): string
    requires k < |run|
  {
    LoadUrl(c, StoreAt(c, run, k), run[k].url, run[k].o).text
  }

  // Step k asked the network, and stored what it got.
  predicate Asked(c: Limits, run: seq<LoadStep>, k: nat)
    requires k < |run|
  {
    !IsHit(c, StoreAt(c, run, k), run[k].url, run[k].o)
  }

  predicate Stored(c: Limits, run: seq<LoadStep>, k: nat)
    requires k < |run|
  {
    c.hasCache && Asked(c, run, k) && run[k].o.response != ""
  }

  // Step k is the last of its URL that stored something, among the first n.
  predicate IsLastStore(c: Limits, run: seq<LoadStep>, n: nat, url: string, k: nat)
    requires n <= |run|
  {
    && k < n && run[k].url == url && Stored(c, run, k)
    && forall j :: k < j < n && run[j].url == url ==> !Stored(c, run, j)
  }

  // The clock never goes back, within a step or between steps.
  predicate ClockAdvances(run: seq<LoadStep>) {
    && (forall k :: 0 <= k < |run| ==> run[k].o.getAt <= run[k].o.putAt <= run[k].o.staleAt)
    && (forall j, k :: 0 <= j < k < |run| ==> run[j].o.staleAt <= run[k].o.getAt)
  }

  lemma StoreStep(c: Limits, run: seq<LoadStep>, n: nat)
    requires n < |run|
    ensures StoreAt(c, run, n + 1) ==
      if Stored(c, run, n) then StoreAt(c, run, n)[run[n].url := Entry(run[n].o.response, run[n].o.putAt)]
      else StoreAt(c, run, n)
  {
    hide HasFresh, HasStale;
    assert run[..n + 1][..n] == run[..n];
    EntriesAreNotEmpty(c, run, n);
  }

  lemma {:induction false} EntriesAreNotEmpty(c: Limits, run: seq<LoadStep>, n: nat)
    requires n <= |run|
    ensures forall url :: url in StoreAt(c, run, n) ==> StoreAt(c, run, n)[url].content != ""
  {
    hide HasStale, HasFresh;
    if n > 0 {
      EntriesAreNotEmpty(c, run, n - 1);
      assert run[..n][..n - 1] == run[..n - 1];
      var before := StoreAt(c, run, n - 1);
      assert StoreAt(c, run, n) == LoadUrl(c, before, run[n - 1].url, run[n - 1].o).store;
    }
  }

  /** Along every run the cache holds, for each URL, the last non-empty response
      fetched for it, stamped with the time it was stored; and nothing else. */
  lemma {:induction false} CacheIsLastFetch(c: Limits, run: seq<LoadStep>, n: nat, url: string)
    requires n <= |run|
    ensures url in StoreAt(c, run, n) <==> exists k: nat :: IsLastStore(c, run, n, url, k)
    ensures forall k: nat :: IsLastStore(c, run, n, url, k) ==>
      StoreAt(c, run, n)[url] == Entry(run[k].o.response, run[k].o.putAt)
  {
    hide StoreAt, Stored;
    if n == 0 {
      NothingAtStart(c, run);
    } else {
      CacheIsLastFetch(c, run, n - 1, url);
      StoreStep(c, run, n - 1);
      if run[n - 1].url == url && Stored(c, run, n - 1) {
        assert IsLastStore(c, run, n, url, n - 1);
      } else {
        forall k: nat
          ensures IsLastStore(c, run, n, url, k) <==> IsLastStore(c, run, n - 1, url, k)
        {
        }
        var m := n - 1;
        if k: nat :| IsLastStore(c, run, m, url, k) {
          assert IsLastStore(c, run, n, url, k);
        }
      }
    }
  }

  lemma NothingAtStart(c: Limits, run: seq<LoadStep>)
    ensures StoreAt(c, run, 0) == map[]
  {
  }

  lemma {:induction false} LastStoreExists(c: Limits, run: seq<LoadStep>, n: nat, url: string, j: nat) returns (k: nat)
    requires j < n <= |run| && run[j].url == url && Stored(c, run, j)
    ensures j <= k && IsLastStore(c, run, n, url, k)
    decreases n
  {
    hide Stored;
    if j == n - 1 || (run[n - 1].url == url && Stored(c, run, n - 1)) {
      k := n - 1;
    } else {
      k := LastStoreExists(c, run, n - 1, url, j);
    }
  }

  /** Two responses stored for one URL are at least the time-to-live apart. */
  lemma StoresAreApart(c: Limits, run: seq<LoadStep>, j: nat, k: nat)
    requires ClockAdvances(run)
    requires j < k < |run| && run[j].url == run[k].url && Stored(c, run, j) && Stored(c, run, k)
    ensures run[k].o.putAt - run[j].o.putAt >= c.ttl
  {
    hide StoreAt;
    var last := LastStoreExists(c, run, k, run[k].url, j);
    CacheIsLastFetch(c, run, k, run[k].url);
    if last > j {
      assert run[j].o.staleAt <= run[last].o.getAt;
    }
  }

  /** Every cache without empty contents, such as one read from a file, is the cache of
      some run: what holds along every run holds for loads that begin with it. */
  lemma {:induction false} StoreIsReached(c: Limits, store: Store) returns (run: seq<LoadStep>)
    requires c.hasCache && forall url :: url in store ==> store[url].content != ""
    ensures RunStore(c, run) == store
    decreases |store|
  {
    hide HasStale;
    if store == map[] {
      run := [];
    } else {
      var url :| url in store;
      var rest := store - {url};
      assert rest.Keys == store.Keys - {url};
      var before := StoreIsReached(c, rest);
      var e := store[url];
      run := before + [LoadStep(url, Reading(0, e.content, e.fetchedAt, 0, 0))];
      assert run[..|run| - 1] == before;
      assert rest[url := e] == store;
    }
  }

  // A response for the URL of step k was stored last by step j, before k.
  ghost predicate IsOnHand(c: Limits, run: seq<LoadStep>, k: nat, j: nat)
    requires k < |run|
  {
    c.hasCache && IsLastStore(c, run, k, run[k].url, j)
  }

  /** A step asks the network exactly when no response stored last for its URL is
      younger than the time-to-live. */
  lemma AskedIff(c: Limits, run: seq<LoadStep>, k: nat)
    requires k < |run|
    ensures Asked(c, run, k) <==> forall j: nat :: IsOnHand(c, run, k, j) ==>
              run[k].o.getAt - run[j].o.putAt >= c.ttl
  {
    hide StoreAt, IsLastStore;
    CacheIsLastFetch(c, run, k, run[k].url);
  }

  /** What a step hands to the parser, by the clock: the response on hand while it is
      younger than the time-to-live; else what the network answers; and where that is
      nothing, the response on hand while it is younger than both limits together. */
  lemma TextIs(c: Limits, run: seq<LoadStep>, k: nat)
    requires k < |run|
    ensures forall j: nat :: IsOnHand(c, run, k, j) && run[k].o.getAt - run[j].o.putAt < c.ttl ==>
              TextAt(c, run, k) == run[j].o.response
    ensures Asked(c, run, k) && run[k].o.response != "" ==> TextAt(c, run, k) == run[k].o.response
    ensures forall j: nat :: Asked(c, run, k) && run[k].o.response == "" && IsOnHand(c, run, k, j) ==>
              TextAt(c, run, k)
              == if run[k].o.staleAt - run[j].o.putAt < c.ttl + c.staleTtl then run[j].o.response else ""
    ensures Asked(c, run, k) && run[k].o.response == "" && (forall j: nat :: !IsOnHand(c, run, k, j)) ==>
              TextAt(c, run, k) == ""
  {
    hide StoreAt, IsLastStore;
    CacheIsLastFetch(c, run, k, run[k].url);
    EntriesAreNotEmpty(c, run, k);
  }

  // The text was fetched in step k itself.
  predicate IsJustFetched(c: Limits, run: seq<LoadStep>, k: nat)
    requires k < |run|
  {
    Asked(c, run, k) && TextAt(c, run, k) == run[k].o.response
  }

  // The text is a response of an earlier step for the URL, at most so old when read.
  ghost predicate IsCachedText(c: Limits, run: seq<LoadStep>, k: nat, j: nat)
    requires k < |run|
  {
    && j < k && run[j].url == run[k].url && Stored(c, run, j)
    && TextAt(c, run, k) == run[j].o.response
    && (if Asked(c, run, k)
        then run[k].o.response == "" && run[k].o.staleAt - run[j].o.putAt < c.ttl + c.staleTtl
        else run[k].o.getAt - run[j].o.putAt < c.ttl)
  }

  /** Every text handed to the parser was fetched in that very step, or is the last
      stored response for the URL: younger than the time-to-live when the cache
      answered first, and younger than both limits together when a failed fetch
      fell back on it. */
  lemma TextsAreRecent(c: Limits, run: seq<LoadStep>, k: nat)
    requires k < |run| && TextAt(c, run, k) != ""
    ensures IsJustFetched(c, run, k) || exists j: nat :: IsCachedText(c, run, k, j)
  {
    hide StoreAt, Stored;
    var url, o := run[k].url, run[k].o;
    EntriesAreNotEmpty(c, run, k);
    CacheIsLastFetch(c, run, k, url);
    if !IsJustFetched(c, run, k) {
      assert url in StoreAt(c, run, k);
      var j: nat :| IsLastStore(c, run, k, url, j);
      assert IsCachedText(c, run, k, j);
    }
  }

  /** A failed fetch never changes the cache, and neither does a hit. */
  lemma FailureKeepsCache(c: Limits, run: seq<LoadStep>, k: nat)
    requires k < |run| && (run[k].o.response == "" || !Asked(c, run, k))
    ensures StoreAt(c, run, k + 1) == StoreAt(c, run, k)
  {
    StoreStep(c, run, k);
  }

  /** A URL with a usable entry always yields a text, even when the fetch fails. */
  lemma UsableEntryYieldsText(c: Limits, run: seq<LoadStep>, k: nat)
    requires k < |run| && c.hasCache
    requires HasStale(StoreAt(c, run, k), c.ttl, c.staleTtl, run[k].url, run[k].o.staleAt)
    ensures TextAt(c, run, k) != ""
  {
    hide StoreAt;
    EntriesAreNotEmpty(c, run, k);
  }

  // The steps a load of all URLs takes, one after the other.
  function StepsOf(urls: seq<string>, world: seq<Reading>): (r: seq<LoadStep>)
    requires |world| == |urls|
    ensures |r| == |urls|
  {
    seq(|urls|, i requires 0 <= i < |urls| => LoadStep(urls[i], world[i]))
  }

  lemma RunOneMore(c: Limits, run: seq<LoadStep>, urls: seq<string>, world: seq<Reading>, m: nat)
    requires |world| == |urls| && m < |urls|
    ensures RunStore(c, run + StepsOf(urls, world)[..m + 1])
         == LoadUrl(c, RunStore(c, run + StepsOf(urls, world)[..m]), urls[m], world[m]).store
  {
    hide LoadUrl;
    var all := run + StepsOf(urls, world)[..m + 1];
    assert all[..|all| - 1] == run + StepsOf(urls, world)[..m];
    assert all[|all| - 1] == LoadStep(urls[m], world[m]);
  }

  // ---- What a load gathers -----------------------------------------------

  function Total(s: seq<int>): int {
    if s == [] then 0 else Total(s[..|s| - 1]) + s[|s| - 1]
  }

  // The run that a load of all URLs continues it to.
  function Continued(run: seq<LoadStep>, urls: seq<string>, world: seq<Reading>): (all: seq<LoadStep>)
    requires |world| == |urls|
    ensures |all| == |run| + |urls|
    ensures forall k :: |run| <= k < |all| ==> all[k] == LoadStep(urls[k - |run|], world[k - |run|])
  {
    run + StepsOf(urls, world)
  }

  // How often e is among the events of the text that step k hands over; an empty text
  // and one that throws have none.
  function TimesParsed(e: Event, c: Limits, all: seq<LoadStep>, k: nat, settings: Settings, zone: int): int
    requires k < |all|
  {
    if TextAt(c, all, k) == "" then 0
    else match RawEventsOf(TextAt(c, all, k), zone)
      case Ok(raws) => SelectedEvents(raws, ComputeWindow(all[k].o.parseAt, settings, zone), zone)[e]
      case Err(_) => 0
  }

  predicate Throws(c: Limits, all: seq<LoadStep>, k: nat, zone: int)
    requires k < |all|
  {
    TextAt(c, all, k) != "" && RawEventsOf(TextAt(c, all, k), zone).Err?
  }

  // The counts of the steps from one up to another.
  function Counts(e: Event, c: Limits, all: seq<LoadStep>, from: nat, to: nat, settings: Settings, zone: int): seq<int>
    requires from <= to <= |all|
  {
    seq(to - from, k requires 0 <= k < to - from => TimesParsed(e, c, all, from + k, settings, zone))
  }

  lemma CountsGrow(e: Event, c: Limits, all: seq<LoadStep>, from: nat, to: nat, settings: Settings, zone: int)
    requires from <= to < |all|
    ensures Total(Counts(e, c, all, from, to + 1, settings, zone))
         == Total(Counts(e, c, all, from, to, settings, zone)) + TimesParsed(e, c, all, to, settings, zone)
  {
    hide TimesParsed;
    var more := Counts(e, c, all, from, to + 1, settings, zone);
    assert more[..to - from] == Counts(e, c, all, from, to, settings, zone);
  }

  lemma CountNothing(e: Event, c: Limits, all: seq<LoadStep>, from: nat, settings: Settings, zone: int)
    requires from <= |all|
    ensures Total(Counts(e, c, all, from, from, settings, zone)) == 0
  {
    hide TimesParsed;
  }

  // A longer run does not change what earlier steps do.
  lemma EarlierStepStays(e: Event, c: Limits, all: seq<LoadStep>, most: seq<LoadStep>, k: nat,
                         settings: Settings, zone: int)
    requires k < |most| && most <= all
    ensures TextAt(c, all, k) == TextAt(c, most, k) && all[k] == most[k]
    ensures Throws(c, all, k, zone) == Throws(c, most, k, zone)
    ensures TimesParsed(e, c, all, k, settings, zone) == TimesParsed(e, c, most, k, settings, zone)
  {
    hide LoadUrl, RunStore, RawEventsOf, SelectedEvents, ComputeWindow;
    assert all[..k] == most[..k];
  }

  lemma EarlierCountsStay(e: Event, c: Limits, all: seq<LoadStep>, most: seq<LoadStep>, from: nat, to: nat,
                          settings: Settings, zone: int)
    requires from <= to <= |most| && most <= all
    ensures Counts(e, c, all, from, to, settings, zone) == Counts(e, c, most, from, to, settings, zone)
  {
    hide TimesParsed, TextAt, Throws;
    forall k: nat | from <= k < to
      ensures TimesParsed(e, c, all, k, settings, zone) == TimesParsed(e, c, most, k, settings, zone)
    {
      EarlierStepStays(e, c, all, most, k, settings, zone);
    }
  }

  // What a load has gathered in the steps from one up to another.
  ghost predicate Gathered(l: LoadResult, c: Limits, all: seq<LoadStep>, from: nat, to: nat,
                           settings: Settings, zone: int)
    requires from <= to <= |all|
  {
    && l.store == StoreAt(c, all, to)
    && (forall e: Event :: l.events[e] == Total(Counts(e, c, all, from, to, settings, zone)))
    && (forall k: nat :: from <= k < to - 1 ==> !Throws(c, all, k, zone))
    && (l.error.Some? <==> from < to && Throws(c, all, to - 1, zone))
    && (l.error.Some? ==> RawEventsOf(TextAt(c, all, to - 1), zone) == Err(l.error.value))
  }

  lemma GatheredStays(l: LoadResult, c: Limits, all: seq<LoadStep>, most: seq<LoadStep>, from: nat, to: nat,
                      settings: Settings, zone: int)
    requires from <= to <= |most| && most <= all && Gathered(l, c, most, from, to, settings, zone)
    ensures Gathered(l, c, all, from, to, settings, zone)
  {
    hide LoadUrl, RunStore, TextAt, RawEventsOf, SelectedEvents, ComputeWindow, Total, Throws, Counts, TimesParsed;
    assert all[..to] == most[..to];
    forall e: Event
      ensures Counts(e, c, all, from, to, settings, zone) == Counts(e, c, most, from, to, settings, zone)
    {
      EarlierCountsStay(e, c, all, most, from, to, settings, zone);
    }
    forall k: nat | from <= k < to
      ensures Throws(c, all, k, zone) == Throws(c, most, k, zone)
      ensures TextAt(c, all, k) == TextAt(c, most, k) && all[k] == most[k]
    {
      EarlierStepStays(BLANK_EVENT, c, all, most, k, settings, zone);
    }
  }

  // One more step, after steps that did not throw.
  lemma GatherOne(before: LoadResult, l: LoadResult, c: Limits, all: seq<LoadStep>, from: nat, to: nat,
                  settings: Settings, zone: int)
    requires from <= to < |all| && before.error.None? && Gathered(before, c, all, from, to, settings, zone)
    requires l.store == StoreAt(c, all, to + 1)
    requires forall e: Event :: l.events[e] == before.events[e] + TimesParsed(e, c, all, to, settings, zone)
    requires l.error.Some? <==> Throws(c, all, to, zone)
    requires l.error.Some? ==> RawEventsOf(TextAt(c, all, to), zone) == Err(l.error.value)
    ensures Gathered(l, c, all, from, to + 1, settings, zone)
  {
    hide LoadUrl, RunStore, TextAt, RawEventsOf, Total, Throws, Counts, TimesParsed, StoreAt;
    forall e: Event
      ensures l.events[e] == Total(Counts(e, c, all, from, to + 1, settings, zone))
    {
      CountsGrow(e, c, all, from, to, settings, zone);
    }
  }

  lemma LoadNothing(c: Limits, run: seq<LoadStep>, settings: Settings, zone: int)
    ensures Gathered(LoadAll(c, RunStore(c, run), [], [], settings, zone), c, Continued(run, [], []),
                     |run|, |run|, settings, zone)
  {
    hide RunStore, Total, Counts, Throws, TextAt, RawEventsOf, SelectedEvents, ComputeWindow;
    var all := Continued(run, [], []);
    assert all[..|run|] == run;
    forall e: Event
      ensures Total(Counts(e, c, all, |run|, |run|, settings, zone)) == 0
    {
      CountNothing(e, c, all, |run|, settings, zone);
    }
  }

  lemma StepIs(c: Limits, all: seq<LoadStep>, k: nat)
    requires k < |all|
    ensures Loaded(StoreAt(c, all, k + 1), TextAt(c, all, k)) == LoadUrl(c, StoreAt(c, all, k), all[k].url, all[k].o)
  {
    hide LoadUrl;
    assert all[..k + 1][..k] == all[..k];
  }

  lemma LoadGoesOn(c: Limits, store: Store, urls: seq<string>, world: seq<Reading>, settings: Settings, zone: int)
    requires |world| == |urls| && urls != []
    ensures var m := |urls| - 1;
            var before := LoadAll(c, store, urls[..m], world[..m], settings, zone);
            before.error.None? ==>
              LoadAll(c, store, urls, world, settings, zone)
              == LoadNext(before, LoadUrl(c, before.store, urls[m], world[m]), world[m].parseAt, settings, zone)
  {
    hide LoadUrl, RawEventsOf, SelectedEvents, ComputeWindow;
  }

  lemma GatherNext(before: LoadResult, c: Limits, all: seq<LoadStep>, from: nat, to: nat, settings: Settings, zone: int)
    requires from <= to < |all| && before.error.None? && Gathered(before, c, all, from, to, settings, zone)
    ensures var next := LoadUrl(c, before.store, all[to].url, all[to].o);
            Gathered(LoadNext(before, next, all[to].o.parseAt, settings, zone), c, all, from, to + 1, settings, zone)
  {
    hide LoadUrl, RawEventsOf, SelectedEvents, ComputeWindow, RunStore, TextAt, StoreAt, Counts, Total;
    StepIs(c, all, to);
    var l := LoadNext(before, LoadUrl(c, before.store, all[to].url, all[to].o), all[to].o.parseAt, settings, zone);
    GatherOne(before, l, c, all, from, to, settings, zone);
  }

  /** A load of all URLs continues a run by its steps: all of them, or those up to the
      first whose text throws, which ends it.  It gathers the events of the texts those
      steps hand to the parser, each as often as it is selected there, and no others.
      So what holds along every run holds for every sequence of loads. */
  lemma {:induction false} LoadContinuesRun(c: Limits, run: seq<LoadStep>, urls: seq<string>, world: seq<Reading>,
                                            settings: Settings, zone: int)
    returns (n: nat)
    requires |world| == |urls|
    ensures n <= |urls|
    ensures var l := LoadAll(c, RunStore(c, run), urls, world, settings, zone);
            && Gathered(l, c, Continued(run, urls, world), |run|, |run| + n, settings, zone)
            && (l.error.None? ==> n == |urls|)
    decreases |urls|
  {
    hide LoadUrl, RawEventsOf, SelectedEvents, ComputeWindow, RunStore, Gathered;
    var all := Continued(run, urls, world);
    if urls == [] {
      n := 0;
      LoadNothing(c, run, settings, zone);
    } else {
      var m := |urls| - 1;
      n := LoadContinuesRun(c, run, urls[..m], world[..m], settings, zone);
      var most := Continued(run, urls[..m], world[..m]);
      var before := LoadAll(c, RunStore(c, run), urls[..m], world[..m], settings, zone);
      assert most <= all;
      GatheredStays(before, c, all, most, |run|, |run| + n, settings, zone);
      if before.error.None? {
        n := m + 1;
        LoadGoesOn(c, RunStore(c, run), urls, world, settings, zone);
        GatherNext(before, c, all, |run|, |run| + m, settings, zone);
      }
    }
  }
}
