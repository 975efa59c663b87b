/** firewall/firewall.go, CheckAndRateLimitIp: counting the distinct endpoints an address used within a window,
    with a pruned map per address standing in for the full access log. */
module Firewall {
  import opened Common

  const MAX_STRINGS_PER_IP := 4
  /** How many addresses have entries before others' entries make room. */
  const MAX_ENTRIES := 1000
  const WHITELIST: set<string> := {"51.210.0.171"}

  /** One address's entry: when each endpoint was last used, and when the whole entry expires. */
  datatype Entry = Entry(tokens: map<string, int>, expires: int)

  type Resources = map<string, Entry>

  datatype Verdict = Verdict(flagged: bool, count: int)

  /** Addresses that are counted at all. */
  predicate Counted(ip: string) { ip != "" && ip !in WHITELIST }

  predicate Live(resources: Resources, ip: string, now: int)
  {
    ip in resources && now <= resources[ip].expires
  }

  /** The tokens not older than the window. */
  function Prune(tokens: map<string, int>, now: int, window: nat): map<string, int>
  {
    map e | e in tokens && now - tokens[e] <= window :: tokens[e]
  }

  /** The entry of an address after a call; an expired or missing one is created anew. */
  function EntryAfter(resources: Resources, ip: string, endpoint: string, now: int, window: nat): Entry
  {
    if Live(resources, ip, now) then
      resources[ip].(tokens := Prune(resources[ip].tokens[endpoint := now], now, window))
    else
      Entry(map[endpoint := now], now + window * 10)
  }

  function VerdictAfter(resources: Resources, ip: string, endpoint: string, now: int, window: nat): Verdict
  {
    if !Counted(ip) then Verdict(false, 0)
    else if !Live(resources, ip, now) then Verdict(false, 1)
    else
      var n := |EntryAfter(resources, ip, endpoint, now, window).tokens|;
      Verdict(n > MAX_STRINGS_PER_IP, n)
  }

  /** Other addresses' entries are as they were, or gone. */
  predicate OthersOnlyDropped(before: Resources, after: Resources, ip: string)
  {
    forall other :: other != ip && other in after ==> other in before && after[other] == before[other]
  }

  predicate SameEntry(r: Resources, r': Resources, ip: string)
  {
    (ip in r <==> ip in r') && (ip in r ==> r[ip] == r'[ip])
  }

  class RateLimiter {
    const window: nat
    var resources: Resources

    constructor (window: nat)
      ensures this.window == window && resources == map[]
    {
      this.window, resources := window, map[];
    }

    /** Once there are many, a new entry may push out entries of other addresses; nothing else about them changes. */
    method CheckAndRateLimitIp(ip: string, endpoint: string, now: int) returns (flagged: bool, resourcesCount: int)
      modifies this
      ensures Verdict(flagged, resourcesCount) == VerdictAfter(old(resources), ip, endpoint, now, window)
      ensures !Counted(ip) ==> resources == old(resources)
      ensures Counted(ip) ==>
                ip in resources && resources[ip] == EntryAfter(old(resources), ip, endpoint, now, window)
      ensures OthersOnlyDropped(old(resources), resources, ip)
      ensures Counted(ip) && |old(resources)| < 1000 ==>
                resources == old(resources)[ip := EntryAfter(old(resources), ip, endpoint, now, window)]
      ensures Live(old(resources), ip, now) ==> resources.Keys == old(resources).Keys
    {
      if ip == "" {
        return false, 0;
      }
      if ip in WHITELIST {
        return false, 0;
      }
      if ip !in resources || now > resources[ip].expires {
        var pushedOut: set<string> := {};
        if |resources| >= MAX_ENTRIES {
          pushedOut := *;
        }
        resources := (resources - pushedOut)[ip := Entry(map[endpoint := now], now + window * 10)];
        return false, 1;
      }
      var tokens := resources[ip].tokens[endpoint := now];
      var kept: map<string, int>;
      flagged, resourcesCount, kept := PruneAndCount(tokens, now);
      resources := resources[ip := resources[ip].(tokens := kept)];
    }

    /** The walk over the tokens, in whatever order the map yields them. */
    method PruneAndCount(tokens: map<string, int>, now: int) returns (flagged: bool, count: int, kept: map<string, int>)
      ensures kept == Prune(tokens, now, window)
      ensures count == |Prune(tokens, now, window)|
      ensures flagged <==> count > MAX_STRINGS_PER_IP
    {
      kept, count, flagged := tokens, 0, false;
      var unseen := tokens.Keys;
      while unseen != {}
        invariant unseen <= kept.Keys <= tokens.Keys
        invariant forall e :: e in kept ==> kept[e] == tokens[e]
        invariant forall e :: e in tokens && e !in unseen ==> (e in kept <==> now - tokens[e] <= window)
        invariant count == |kept.Keys| - |unseen|
        invariant flagged <==> count > MAX_STRINGS_PER_IP
        decreases unseen
      {
        var k :| k in unseen;
        assert |unseen - {k}| == |unseen| - 1;
        unseen := unseen - {k};
        if now - tokens[k] > window {
          assert (kept - {k}).Keys == kept.Keys - {k};
          kept := kept - {k};
        } else {
          count := count + 1;
          if !flagged && count > MAX_STRINGS_PER_IP {
            flagged := true;
          }
        }
      }
      assert kept == Prune(tokens, now, window);
      assert |kept| == |kept.Keys|;
    }
  }

  // ---- runs

  datatype Access = Access(ip: string, endpoint: string, time: int)

  /** A call, or the cache dropping entries. */
  datatype Event = Call(access: Access) | Evict(ips: set<string>)

  /** The state after a run: the pruned maps, the full log of counted calls, the position in the log at which each
      entry was created, and the last verdict. */
  datatype Run = Run(resources: Resources, log: seq<Access>, born: map<string, nat>, last: Verdict)

  const START := Run(map[], [], map[], Verdict(false, 0))

  function Step(run: Run, event: Event, window: nat): Run
  {
    match event
    case Evict(ips) => run.(resources := run.resources - ips)
    case Call(a) =>
      var verdict := VerdictAfter(run.resources, a.ip, a.endpoint, a.time, window);
      if !Counted(a.ip) then run.(last := verdict)
      else
        Run(run.resources[a.ip := EntryAfter(run.resources, a.ip, a.endpoint, a.time, window)],
            run.log + [a],
            if Live(run.resources, a.ip, a.time) then run.born else run.born[a.ip := |run.log|],
            verdict)
  }

  /** What a call of the rate limiter ensures makes it a step of a run: an eviction of other addresses, then the
      call. */
  lemma CallIsAStep(run: Run, after: Resources, verdict: Verdict, a: Access, window: nat) returns (dropped: set<string>)
    requires verdict == VerdictAfter(run.resources, a.ip, a.endpoint, a.time, window)
    requires Counted(a.ip) ==>
               a.ip in after && after[a.ip] == EntryAfter(run.resources, a.ip, a.endpoint, a.time, window)
    requires !Counted(a.ip) ==> after == run.resources
    requires OthersOnlyDropped(run.resources, after, a.ip)
    ensures a.ip !in dropped
    ensures var run' := Step(Step(run, Evict(dropped), window), Call(a), window);
            run'.resources == after && run'.last == verdict
  {
    dropped := run.resources.Keys - after.Keys - {a.ip};
    DroppedIsRest(run.resources, after, a.ip, dropped);
    SameVerdict(run.resources, run.resources - dropped, a, window);
  }

  lemma DroppedIsRest(before: Resources, after: Resources, ip: string, dropped: set<string>)
    requires OthersOnlyDropped(before, after, ip) && dropped == before.Keys - after.Keys - {ip}
    ensures ip in after ==> after == (before - dropped)[ip := after[ip]]
    ensures after == before ==> before - dropped == before
  {
  }

  lemma SameVerdict(r: Resources, r': Resources, a: Access, window: nat)
    requires SameEntry(r, r', a.ip)
    ensures VerdictAfter(r, a.ip, a.endpoint, a.time, window) == VerdictAfter(r', a.ip, a.endpoint, a.time, window)
    ensures EntryAfter(r, a.ip, a.endpoint, a.time, window) == EntryAfter(r', a.ip, a.endpoint, a.time, window)
  {
  }

  function RunOf(events: seq<Event>, window: nat): Run
  {
    if events == [] then START else Step(RunOf(events[..|events| - 1], window), events[|events| - 1], window)
  }

  /** The counted calls among the events, in order. */
  function Calls(events: seq<Event>): seq<Access>
  {
    if events == [] then []
    else
      var event := events[|events| - 1];
      Calls(events[..|events| - 1]) + if event.Call? && Counted(event.access.ip) then [event.access] else []
  }

  /** The log is the full history, whatever was evicted, expired or pruned on the way. */
  lemma {:induction false} LogIsHistory(events: seq<Event>, window: nat)
    ensures RunOf(events, window).log == Calls(events)
  {
    if events != [] {
      LogIsHistory(events[..|events| - 1], window);
    }
  }

  /** The endpoints that an address used within the window, from position `from` of the log on. */
  function Recent(log: seq<Access>, from: nat, ip: string, now: int, window: nat): set<string>
  {
    set i | from <= i < |log| && log[i].ip == ip && now - log[i].time <= window :: log[i].endpoint
  }

  predicate InOrder(log: seq<Access>, now: int)
  {
    && (forall i, j :: 0 <= i < j < |log| ==> log[i].time <= log[j].time)
    && (forall i :: 0 <= i < |log| ==> log[i].time <= now)
  }

  /** The events' clock does not go back. */
  predicate Clocked(events: seq<Event>)
  {
    forall i, j :: 0 <= i < j < |events| && events[i].Call? && events[j].Call? ==>
      events[i].access.time <= events[j].access.time
  }

  /** An entry's tokens are the last uses logged since it was created, except those that had left the window
      by the time `now`. */
  ghost predicate Tracks(entry: Entry, log: seq<Access>, from: nat, ip: string, now: int, window: nat)
  {
    && from < |log| && log[from].ip == ip && entry.expires == log[from].time + window * 10
    && (forall e :: e in entry.tokens ==>
          exists i :: from <= i < |log| && log[i] == Access(ip, e, entry.tokens[e]))
    && (forall i :: from <= i < |log| && log[i].ip == ip ==>
          || now - log[i].time > window
          || (log[i].endpoint in entry.tokens && log[i].time <= entry.tokens[log[i].endpoint]))
  }

  ghost predicate Inv(run: Run, now: int, window: nat)
  {
    && InOrder(run.log, now)
    && (forall ip :: ip in run.resources ==>
          ip in run.born && Tracks(run.resources[ip], run.log, run.born[ip], ip, now, window))
  }

  lemma TracksLater(entry: Entry, log: seq<Access>, from: nat, ip: string, now: int, later: int, window: nat)
    requires Tracks(entry, log, from, ip, now, window) && now <= later
    ensures Tracks(entry, log, from, ip, later, window)
  {
  }

  /** A use by another address changes nothing. */
  lemma TracksOther(entry: Entry, log: seq<Access>, from: nat, ip: string, now: int, window: nat, a: Access)
    requires Tracks(entry, log, from, ip, now, window) && a.ip != ip
    ensures Tracks(entry, log + [a], from, ip, now, window)
  {
    var log' := log + [a];
    forall e | e in entry.tokens
      ensures exists i :: from <= i < |log'| && log'[i] == Access(ip, e, entry.tokens[e])
    {
      var i :| from <= i < |log| && log[i] == Access(ip, e, entry.tokens[e]);
      assert log'[i] == log[i];
    }
  }

  /** A use by the address itself, stored and pruned, keeps the entry in step with the log. */
  lemma TracksCall(entry: Entry, log: seq<Access>, from: nat, a: Access, window: nat)
    requires Tracks(entry, log, from, a.ip, a.time, window) && InOrder(log, a.time)
    ensures Tracks(entry.(tokens := Prune(entry.tokens[a.endpoint := a.time], a.time, window)),
                   log + [a], from, a.ip, a.time, window)
  {
    var log' := log + [a];
    var tokens' := Prune(entry.tokens[a.endpoint := a.time], a.time, window);
    assert log'[|log|] == a;
    forall e | e in tokens'
      ensures exists i :: from <= i < |log'| && log'[i] == Access(a.ip, e, tokens'[e])
    {
      if e != a.endpoint {
        var i :| from <= i < |log| && log[i] == Access(a.ip, e, entry.tokens[e]);
        assert log'[i] == log[i];
      }
    }
  }

  lemma TracksNew(log: seq<Access>, a: Access, window: nat)
    ensures Tracks(Entry(map[a.endpoint := a.time], a.time + window * 10), log + [a], |log|, a.ip, a.time, window)
  {
    assert (log + [a])[|log|] == Access(a.ip, a.endpoint, map[a.endpoint := a.time][a.endpoint]);
  }

  /** While it is in step with the log, a live entry holds exactly the endpoints used in the window since it was
      created. */
  lemma TokensAreRecent(entry: Entry, log: seq<Access>, from: nat, ip: string, now: int, window: nat)
    requires Tracks(entry, log, from, ip, now, window) && InOrder(log, now)
    requires forall e :: e in entry.tokens ==> now - entry.tokens[e] <= window
    ensures entry.tokens.Keys == Recent(log, from, ip, now, window)
  {
    forall e | e in entry.tokens
      ensures e in Recent(log, from, ip, now, window)
    {
      var i :| from <= i < |log| && log[i] == Access(ip, e, entry.tokens[e]);
      assert log[i].endpoint == e;
    }
  }

  lemma InvStep(run: Run, event: Event, now: int, window: nat)
    requires Inv(run, now, window)
    requires event.Call? ==> now <= event.access.time
    ensures Inv(Step(run, event, window), if event.Call? then event.access.time else now, window)
  {
    if event.Call? {
      var a := event.access;
      var run' := Step(run, event, window);
      forall ip | ip in run'.resources
        ensures ip in run'.born && Tracks(run'.resources[ip], run'.log, run'.born[ip], ip, a.time, window)
      {
        if ip in run.resources {
          TracksLater(run.resources[ip], run.log, run.born[ip], ip, now, a.time, window);
        }
        if Counted(a.ip) {
          EntryStep(run, a, ip, window);
        }
      }
    }
  }

  lemma EntryStep(run: Run, a: Access, ip: string, window: nat)
    requires Counted(a.ip) && InOrder(run.log, a.time) && ip in Step(run, Call(a), window).resources
    requires ip in run.resources ==>
               ip in run.born && Tracks(run.resources[ip], run.log, run.born[ip], ip, a.time, window)
    ensures var run' := Step(run, Call(a), window);
            ip in run'.born && Tracks(run'.resources[ip], run'.log, run'.born[ip], ip, a.time, window)
  {
    if ip != a.ip {
      TracksOther(run.resources[ip], run.log, run.born[ip], ip, a.time, window, a);
    } else if Live(run.resources, ip, a.time) {
      TracksCall(run.resources[ip], run.log, run.born[ip], a, window);
    } else {
      TracksNew(run.log, a, window);
    }
  }

  /** The invariant at every point of every run, under any clock reading not before the last call. */
  lemma {:induction false} InvOfRun(events: seq<Event>, now: int, window: nat)
    requires Clocked(events) && forall i :: 0 <= i < |events| && events[i].Call? ==> events[i].access.time <= now
    ensures Inv(RunOf(events, window), now, window)
  {
    if events != [] {
      var n := |events| - 1;
      var event := events[n];
      var was := if event.Call? then event.access.time else now;
      InvOfRun(events[..n], was, window);
      InvStep(RunOf(events[..n], window), event, was, window);
      var run := RunOf(events, window);
      forall ip | ip in run.resources
        ensures Tracks(run.resources[ip], run.log, run.born[ip], ip, now, window)
      {
        TracksLater(run.resources[ip], run.log, run.born[ip], ip, was, now, window);
      }
    }
  }

  /** The verdict of the last call of any run, in terms of the run's own records. */
  lemma CountSinceBorn(events: seq<Event>, a: Access, window: nat)
    requires Clocked(events + [Call(a)]) && Counted(a.ip)
    ensures var run := RunOf(events + [Call(a)], window);
            && a.ip in run.resources && a.ip in run.born && run.born[a.ip] < |run.log|
            && run.last.count == |Recent(run.log, run.born[a.ip], a.ip, a.time, window)|
            && (run.last.flagged <==> run.last.count > 4)
  {
    var all := events + [Call(a)];
    assert all[..|events|] == events && all[|events|] == Call(a);
    InvOfRun(all, a.time, window);
    var run := RunOf(all, window);
    var before := RunOf(events, window);
    var entry := run.resources[a.ip];
    assert run == Step(before, Call(a), window);
    TokensAreRecent(entry, run.log, run.born[a.ip], a.ip, a.time, window);
    if !Live(before.resources, a.ip, a.time) {
      assert entry.tokens.Keys == {a.endpoint};
    }
    assert |entry.tokens| == |entry.tokens.Keys|;
  }

  /** When the entry was created that an address has after some events, as a position among the counted calls, told
      from the events alone: an eviction ends an entry, and so does a call more than ten windows after its creation;
      a call that finds none creates one. */
  function Birth(events: seq<Event>, ip: string, window: nat): (b: Option<nat>)
    ensures b.Some? ==> b.value < |Calls(events)|
  {
    if events == [] then None
    else
      var rest, event := events[..|events| - 1], events[|events| - 1];
      match event
      case Evict(ips) => if ip in ips then None else Birth(rest, ip, window)
      case Call(a) =>
        if a.ip != ip || ip == "" || ip == "51.210.0.171" then Birth(rest, ip, window)
        else
          match Birth(rest, ip, window)
          case Some(b) => if a.time <= Calls(rest)[b].time + 10 * window then Some(b) else Some(|Calls(rest)|)
          case None => Some(|Calls(rest)|)
  }

  lemma {:induction false} BornIs(events: seq<Event>, ip: string, window: nat)
    ensures var run, b := RunOf(events, window), Birth(events, ip, window);
            && (ip in run.resources <==> b.Some?)
            && (b.Some? ==>
                  && ip in run.born && run.born[ip] == b.value
                  && run.resources[ip].expires == Calls(events)[b.value].time + 10 * window)
  {
    if events != [] {
      BornIs(events[..|events| - 1], ip, window);
      LogIsHistory(events[..|events| - 1], window);
    }
  }

  ghost predicate NeverEvicted(events: seq<Event>, ip: string)
  {
    forall e :: e in events && e.Evict? ==> ip !in e.ips
  }

  /** An entry lives for ten windows: use does not renew it, and nothing but an eviction ends it before. */
  lemma {:induction false} EntryLivesTenWindows(events: seq<Event>, more: seq<Event>, ip: string, b: nat, window: nat)
    requires Birth(events, ip, window) == Some(b) && NeverEvicted(more, ip)
    requires forall e :: e in more && e.Call? && e.access.ip == ip ==>
               e.access.time <= Calls(events)[b].time + 10 * window
    ensures Birth(events + more, ip, window) == Some(b)
    ensures Calls(events) <= Calls(events + more)
  {
    var all := events + more;
    if more == [] {
      assert all == events;
    } else {
      var n := |more| - 1;
      EntryLivesTenWindows(events, more[..n], ip, b, window);
      assert all == events + more[..n] + [more[n]];
      assert more[n] in more;
      BirthStays(events + more[..n], more[n], ip, b, window);
    }
  }

  lemma BirthStays(events: seq<Event>, event: Event, ip: string, b: nat, window: nat)
    requires Birth(events, ip, window) == Some(b)
    requires event.Evict? ==> ip !in event.ips
    requires event.Call? && event.access.ip == ip ==> event.access.time <= Calls(events)[b].time + 10 * window
    ensures Birth(events + [event], ip, window) == Some(b)
    ensures Calls(events) <= Calls(events + [event])
  {
    var all := events + [event];
    assert all[..|all| - 1] == events;
  }

  /** The verdict of the last call of any run, told from the events alone: the count is the number of distinct endpoints
      that the address used within the window since its entry was created; the flag says whether that exceeds four. */
  lemma CountIsExactInLife(events: seq<Event>, a: Access, window: nat)
    requires Clocked(events + [Call(a)]) && a.ip != "" && a.ip != "51.210.0.171"
    ensures var all := events + [Call(a)];
            var b, last := Birth(all, a.ip, window), RunOf(all, window).last;
            && b.Some?
            && last.count == |Recent(Calls(all), b.value, a.ip, a.time, window)|
            && (last.flagged <==> last.count > 4)
  {
    CountSinceBorn(events, a, window);
    BornIs(events + [Call(a)], a.ip, window);
    LogIsHistory(events + [Call(a)], window);
  }

  /** Only calls without an address, and those of the one exempt address, are not counted. */
  lemma UncountedIff(events: seq<Event>, a: Access, window: nat)
    ensures RunOf(events + [Call(a)], window).last == Verdict(false, 0) <==> a.ip == "" || a.ip == "51.210.0.171"
    ensures Calls(events + [Call(a)]) == Calls(events) + if a.ip == "" || a.ip == "51.210.0.171" then [] else [a]
  {
    var all := events + [Call(a)];
    assert all[..|events|] == events && all[|events|] == Call(a);
    var before := RunOf(events, window);
    if Live(before.resources, a.ip, a.time) {
      assert a.endpoint in EntryAfter(before.resources, a.ip, a.endpoint, a.time, window).tokens;
    }
  }

  /** Once an entry is older than the window, nothing logged before it is recent. */
  lemma OldEntrySeesAll(log: seq<Access>, from: nat, ip: string, now: int, window: nat)
    requires InOrder(log, now) && from < |log| && now - log[from].time > window
    ensures Recent(log, 0, ip, now, window) == Recent(log, from, ip, now, window)
  {
  }

  /** Against the full history: the count never exceeds the true number, and it is the true number if and only if
      every endpoint used within the window was used again since the entry was created;
      in particular whenever the entry is older than the window. */
  lemma NeverOvercounts(events: seq<Event>, a: Access, window: nat)
    requires Clocked(events + [Call(a)]) && a.ip != "" && a.ip != "51.210.0.171"
    ensures var all := events + [Call(a)];
            var log, b, last := Calls(all), Birth(all, a.ip, window), RunOf(all, window).last;
            var truth := Recent(log, 0, a.ip, a.time, window);
            && last.count <= |truth|
            && (last.flagged ==> |truth| > 4)
            && b.Some?
            && (last.count == |truth| <==> truth <= Recent(log, b.value, a.ip, a.time, window))
            && (a.time - log[b.value].time > window ==> last.count == |truth|)
  {
    CountIsExactInLife(events, a, window);
    var all := events + [Call(a)];
    InvOfRun(all, a.time, window);
    LogIsHistory(all, window);
    AgainstHistory(Calls(all), Birth(all, a.ip, window).value, a.ip, a.time, window);
  }

  lemma AgainstHistory(log: seq<Access>, from: nat, ip: string, now: int, window: nat)
    requires InOrder(log, now) && from < |log|
    ensures var truth, counted := Recent(log, 0, ip, now, window), Recent(log, from, ip, now, window);
            && |counted| <= |truth|
            && (|counted| == |truth| <==> truth <= counted)
            && (now - log[from].time > window ==> |counted| == |truth|)
  {
    var truth, counted := Recent(log, 0, ip, now, window), Recent(log, from, ip, now, window);
    assert counted <= truth;
    SubsetIsSmaller(counted, truth);
    if now - log[from].time > window {
      OldEntrySeesAll(log, from, ip, now, window);
    }
    if truth <= counted {
      assert truth == counted;
    }
  }

  // ---- one address among others

  /** What of a run concerns one address: its own calls, and the evictions of its own entry. */
  function Only(events: seq<Event>, ip: string): seq<Event>
  {
    if events == [] then []
    else
      var event := events[|events| - 1];
      var rest := Only(events[..|events| - 1], ip);
      match event
      case Call(a) => if a.ip == ip then rest + [event] else rest
      case Evict(ips) => if ip in ips then rest + [Evict({ip})] else rest
  }

  /** Over any run, an address's entry is the one it would have without all other addresses and their evictions. */
  lemma {:induction false} AddressesAreIndependent(events: seq<Event>, ip: string, window: nat)
    ensures SameEntry(RunOf(events, window).resources, RunOf(Only(events, ip), window).resources, ip)
  {
    if events != [] {
      var rest, event := events[..|events| - 1], events[|events| - 1];
      AddressesAreIndependent(rest, ip, window);
      var only := Only(rest, ip);
      match event {
        case Call(a) =>
          assert (only + [event])[..|only|] == only;
        case Evict(ips) =>
          assert (only + [Evict({ip})])[..|only|] == only;
      }
    }
  }

  /** So is every verdict about it. */
  lemma VerdictsAreIndependent(events: seq<Event>, a: Access, window: nat)
    ensures RunOf(events + [Call(a)], window).last == RunOf(Only(events, a.ip) + [Call(a)], window).last
  {
    AddressesAreIndependent(events, a.ip, window);
    assert (events + [Call(a)])[..|events|] == events;
    var only := Only(events, a.ip);
    assert (only + [Call(a)])[..|only|] == only;
  }

  /** The count does drop below the truth: an entry is not refreshed by use, so it expires in the middle of a busy
      window and takes the recent uses with it. */
  lemma RenewalUndercounts()
    ensures var events := [Call(Access("a", "x", 0)), Call(Access("a", "y", 1190))];
            var run := RunOf(events + [Call(Access("a", "z", 1201))], 120);
            && run.last.count == 1
            && {"y", "z"} <= Recent(run.log, 0, "a", 1201, 120)
  {
    var x, y, z := Access("a", "x", 0), Access("a", "y", 1190), Access("a", "z", 1201);
    var run1 := Step(START, Call(x), 120);
    var run2 := Step(run1, Call(y), 120);
    var run3 := Step(run2, Call(z), 120);
    var e1, e2, e3 := [Call(x)], [Call(x), Call(y)], [Call(x), Call(y), Call(z)];
    assert e1[..0] == [] && RunOf(e1, 120) == run1;
    assert e2[..1] == e1 && RunOf(e2, 120) == run2;
    assert e3[..2] == e2 && RunOf(e3, 120) == run3 && e2 + [Call(z)] == e3;
    assert run2.resources["a"].expires == 1200 && !Live(run2.resources, "a", 1201);
    assert run3.log == [x, y, z] && run3.log[1] == y && run3.log[2] == z;
    assert run3.log[1].endpoint == "y" && run3.log[2].endpoint == "z";
  }
}
