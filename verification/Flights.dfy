/** The two caches under concurrency: any number of callers (readers and prefetchers), shared flights per hash,
    and evictions at any time, as a transition system over atomic steps. */
module Flights {
  import opened Common
  import opened Origin

  /** Where one caller of HotCache.GetSDBlob or HotCache.GetChunk is. */
  datatype Caller =
    | Idle
    | Looking(req: Request)
    | Missed(req: Request)
    | Leading(req: Request, flight: nat)
    | Fetching(req: Request, flight: nat)
    | Fetched(req: Request, flight: nat, data: Option<Bytes>)
    | Landing(req: Request, flight: nat, outcome: Option<Item>)
    | Waiting(req: Request, flight: nat)
    | Returned(req: Request, outcome: Option<Item>)
    | Panicked
  {
    /** The caller runs the flight's function. */
    predicate Leads(f: nat) { (Leading? || Fetching? || Fetched? || Landing?) && flight == f }

    /** The caller's lookup missed, and it has not gone to the origin since. */
    predicate Pending(hash: string) { (Missed? || Leading?) && req.hash == hash }
  }

  /** A shared call: its key, who runs it, and its result once it has landed. */
  datatype Flight = Flight(hash: string, leader: nat, landed: Option<Option<Item>>)

  /** misses and fetches count, per hash, the lookups that missed and the origin fetches started. */
  datatype State = State(
    callers: map<nat, Caller>,
    hot: map<string, Item>,
    disk: map<string, Bytes>,
    inAir: map<string, nat>,
    flights: seq<Flight>,
    misses: multiset<string>,
    fetches: multiset<string>)

  const START := State(map[], map[], map[], map[], [], multiset{}, multiset{})

  datatype Move =
    | Begin(t: nat, req: Request)
    | Lookup(t: nat)
    | Enter(t: nat)
    | AskDisk(t: nat)
    | OriginAnswers(t: nat, up: bool, stored: bool)
    | Store(t: nat, dropped: set<string>)
    | Land(t: nat)
    | Wake(t: nat)
    | Finish(t: nat)
    | EvictHot(hashes: set<string>)
    | EvictDisk(hashes: set<string>)

  function At(s: State, t: nat): Caller { if t in s.callers then s.callers[t] else Idle }

  predicate RightKind(use: Use, item: Item) { use.AsSD? <==> item.SizedSD? }

  function Hand(req: Request, outcome: Option<Item>): Caller
  {
    if outcome.Some? && !RightKind(req.use, outcome.value) then Panicked else Returned(req, outcome)
  }

  /** What a leader makes of the decrypted cache's answer. */
  function ItemOf(w: World, req: Request, data: Option<Bytes>): Option<Item>
  {
    match data
    case None => None
    case Some(bytes) => w.Present(req.use, bytes)
  }

  function HotWith(s: State, req: Request, item: Option<Item>, dropped: set<string>): map<string, Item>
  {
    match item
    case None => s.hot
    case Some(it) => (s.hot - dropped)[req.hash := it]
  }

  predicate Enabled(w: World, maxSizeInBytes: nat, s: State, m: Move)
  {
    match m
    case Begin(t, _) => At(s, t).Idle?
    case Lookup(t) => At(s, t).Looking?
    case Enter(t) => At(s, t).Missed?
    case AskDisk(t) => At(s, t).Leading?
    case OriginAnswers(t, up, _) => At(s, t).Fetching? && (up || At(s, t).req.hash !in w.reliable)
    case Store(t, dropped) =>
      && At(s, t).Fetched?
      && |HotWith(s, At(s, t).req, ItemOf(w, At(s, t).req, At(s, t).data), dropped)| <= HotCapacity(maxSizeInBytes)
    case Land(t) => At(s, t).Landing? && At(s, t).flight < |s.flights|
    case Wake(t) =>
      At(s, t).Waiting? && At(s, t).flight < |s.flights| && s.flights[At(s, t).flight].landed.Some?
    case Finish(t) => At(s, t).Returned?
    case EvictHot(_) => true
    case EvictDisk(_) => true
  }

  function Next(w: World, maxSizeInBytes: nat, s: State, m: Move): State
    requires Enabled(w, maxSizeInBytes, s, m)
  {
    match m
    case Begin(t, req) => s.(callers := s.callers[t := Looking(req)])
    case Lookup(t) =>
      var req := At(s, t).req;
      if req.hash in s.hot then s.(callers := s.callers[t := Hand(req, Some(s.hot[req.hash]))])
      else s.(callers := s.callers[t := Missed(req)], misses := s.misses + multiset{req.hash})
    case Enter(t) =>
      var req := At(s, t).req;
      if req.hash in s.inAir then s.(callers := s.callers[t := Waiting(req, s.inAir[req.hash])])
      else
        var f := |s.flights|;
        s.(callers := s.callers[t := Leading(req, f)],
           flights := s.flights + [Flight(req.hash, t, None)],
           inAir := s.inAir[req.hash := f])
    case AskDisk(t) =>
      var Leading(req, f) := At(s, t);
      if req.hash in s.disk then s.(callers := s.callers[t := Fetched(req, f, Some(s.disk[req.hash]))])
      else s.(callers := s.callers[t := Fetching(req, f)], fetches := s.fetches + multiset{req.hash})
    case OriginAnswers(t, up, stored) =>
      var Fetching(req, f) := At(s, t);
      var data := w.GetFunc(req.use, if up && req.hash in w.blobs then Some(w.blobs[req.hash]) else None);
      s.(callers := s.callers[t := Fetched(req, f, data)],
         disk := if data.Some? && stored then s.disk[req.hash := data.value] else s.disk)
    case Store(t, dropped) =>
      var Fetched(req, f, data) := At(s, t);
      var item := ItemOf(w, req, data);
      s.(callers := s.callers[t := Landing(req, f, item)], hot := HotWith(s, req, item, dropped))
    case Land(t) =>
      var Landing(req, f, outcome) := At(s, t);
      s.(callers := s.callers[t := Returned(req, outcome)],
         flights := s.flights[f := s.flights[f].(landed := Some(outcome))],
         inAir := s.inAir - {req.hash})
    case Wake(t) =>
      var Waiting(req, f) := At(s, t);
      s.(callers := s.callers[t := Hand(req, s.flights[f].landed.value)])
    case Finish(t) => s.(callers := s.callers[t := Idle])
    case EvictHot(hashes) => s.(hot := s.hot - hashes)
    case EvictDisk(hashes) => s.(disk := s.disk - hashes)
  }

  /** The state after a run, if every move was possible when it came. */
  function After(w: World, maxSizeInBytes: nat, moves: seq<Move>): Option<State>
  {
    if moves == [] then Some(START)
    else
      match After(w, maxSizeInBytes, moves[..|moves| - 1])
      case None => None
      case Some(s) =>
        var m := moves[|moves| - 1];
        if Enabled(w, maxSizeInBytes, s, m) then Some(Next(w, maxSizeInBytes, s, m)) else None
  }

  /** Callers only ask for a stored hash as what it is. */
  predicate Conforming(w: World, m: Move) { m.Begin? ==> w.Conforms(m.req) }

  /** The moves are a run of conforming callers. */
  ghost predicate Ran(w: World, maxSizeInBytes: nat, moves: seq<Move>)
  {
    && After(w, maxSizeInBytes, moves).Some?
    && (forall i :: 0 <= i < |moves| ==> Conforming(w, moves[i]))
  }

  // ---- the invariant

  /** The caller's own obligations. */
  ghost predicate CallerOk(w: World, s: State, t: nat, c: Caller)
  {
    match c
    case Idle => true
    case Looking(req) => w.Conforms(req)
    case Missed(req) => w.Conforms(req)
    case Leading(req, f) => LeaderOk(w, s, t, req, f)
    case Fetching(req, f) => LeaderOk(w, s, t, req, f)
    case Fetched(req, f, data) =>
      && LeaderOk(w, s, t, req, f)
      && DataOk(w, req, data)
    case Landing(req, f, outcome) => LeaderOk(w, s, t, req, f) && OutcomeOk(w, req, outcome)
    case Waiting(req, f) => w.Conforms(req) && f < |s.flights| && s.flights[f].hash == req.hash
    case Returned(req, outcome) => OutcomeOk(w, req, outcome)
    case Panicked => false
  }

  /** Decrypted data is the origin's, and is there if the origin has it and cannot fail. */
  ghost predicate DataOk(w: World, req: Request, data: Option<Bytes>)
  {
    && w.Conforms(req)
    && (data.Some? ==> req.hash in w.blobs)
    && (req.hash in w.blobs && (data.Some? || req.hash in w.reliable) ==>
          w.GetFunc(req.use, Some(w.blobs[req.hash])) == data)
  }

  /** An outcome is the truth unless it is an error, and in any case if the hash is reliable. */
  ghost predicate OutcomeOk(w: World, req: Request, outcome: Option<Item>)
  {
    outcome.Some? || req.hash in w.reliable ==> w.Truth(req) == outcome
  }

  ghost predicate LeaderOk(w: World, s: State, t: nat, req: Request, f: nat)
  {
    && w.Conforms(req)
    && f < |s.flights| && s.flights[f] == Flight(req.hash, t, None)
    && req.hash in s.inAir && s.inAir[req.hash] == f
  }

  /** A flight in the air is the one registered for its hash, and its leader is at work on it; one that landed with an
      item landed with the truth. */
  ghost predicate FlightOk(w: World, s: State, f: nat)
    requires f < |s.flights|
  {
    var fl := s.flights[f];
    match fl.landed
    case None => fl.hash in s.inAir && s.inAir[fl.hash] == f && fl.leader in s.callers && s.callers[fl.leader].Leads(f)
    case Some(outcome) => OutcomeOk(w, Request(fl.hash, w.use(fl.hash)), outcome)
  }

  function PendingCallers(callers: map<nat, Caller>, hash: string): set<nat>
  {
    set t | t in callers && callers[t].Pending(hash)
  }

  ghost predicate CallersOk(w: World, s: State) { forall t :: t in s.callers ==> CallerOk(w, s, t, s.callers[t]) }

  ghost predicate FlightsOk(w: World, s: State) { forall f: nat :: f < |s.flights| ==> FlightOk(w, s, f) }

  ghost predicate InAirOk(s: State)
  {
    forall hash :: hash in s.inAir ==>
      s.inAir[hash] < |s.flights| && s.flights[s.inAir[hash]].hash == hash && s.flights[s.inAir[hash]].landed.None?
  }

  ghost predicate CountsOk(s: State)
  {
    forall hash :: s.fetches[hash] + |PendingCallers(s.callers, hash)| <= s.misses[hash]
  }

  ghost predicate Inv(w: World, maxSizeInBytes: nat, s: State)
  {
    && CachesAgree(w, maxSizeInBytes, s.hot, s.disk)
    && CallersOk(w, s) && FlightsOk(w, s) && InAirOk(s) && CountsOk(s)
  }

  // ---- every step keeps the invariant

  lemma PendingAfter(callers: map<nat, Caller>, t: nat, c: Caller, hash: string)
    ensures |PendingCallers(callers[t := c], hash)| ==
              |PendingCallers(callers, hash)|
              - (if t in callers && callers[t].Pending(hash) then 1 else 0)
              + (if c.Pending(hash) then 1 else 0)
  {
    var before, after := PendingCallers(callers, hash), PendingCallers(callers[t := c], hash);
    var others := before - {t};
    assert before == if t in callers && callers[t].Pending(hash) then others + {t} else others;
    assert after == if c.Pending(hash) then others + {t} else others;
  }

  lemma CountsLookup(w: World, maxSizeInBytes: nat, s: State, t: nat)
    requires CountsOk(s) && Enabled(w, maxSizeInBytes, s, Lookup(t))
    ensures CountsOk(Next(w, maxSizeInBytes, s, Lookup(t)))
  {
    var s' := Next(w, maxSizeInBytes, s, Lookup(t));
    forall hash
      ensures s'.fetches[hash] + |PendingCallers(s'.callers, hash)| <= s'.misses[hash]
    {
      PendingAfter(s.callers, t, s'.callers[t], hash);
    }
  }

  lemma CountsAskDisk(w: World, maxSizeInBytes: nat, s: State, t: nat)
    requires CountsOk(s) && Enabled(w, maxSizeInBytes, s, AskDisk(t))
    ensures CountsOk(Next(w, maxSizeInBytes, s, AskDisk(t)))
  {
    var s' := Next(w, maxSizeInBytes, s, AskDisk(t));
    forall hash
      ensures s'.fetches[hash] + |PendingCallers(s'.callers, hash)| <= s'.misses[hash]
    {
      PendingAfter(s.callers, t, s'.callers[t], hash);
    }
  }

  lemma CountsStep(w: World, maxSizeInBytes: nat, s: State, m: Move)
    requires CountsOk(s) && Enabled(w, maxSizeInBytes, s, m)
    ensures CountsOk(Next(w, maxSizeInBytes, s, m))
  {
    var s' := Next(w, maxSizeInBytes, s, m);
    if m.Lookup? {
      CountsLookup(w, maxSizeInBytes, s, m.t);
    } else if m.AskDisk? {
      CountsAskDisk(w, maxSizeInBytes, s, m.t);
    } else {
      assert s'.misses == s.misses && s'.fetches == s.fetches;
      if !m.EvictHot? && !m.EvictDisk? {
        forall hash
          ensures |PendingCallers(s'.callers, hash)| <= |PendingCallers(s.callers, hash)|
        {
          PendingAfter(s.callers, m.t, s'.callers[m.t], hash);
        }
      }
    }
  }

  lemma CachesStep(w: World, maxSizeInBytes: nat, s: State, m: Move)
    requires Inv(w, maxSizeInBytes, s) && Enabled(w, maxSizeInBytes, s, m)
    ensures var s' := Next(w, maxSizeInBytes, s, m); CachesAgree(w, maxSizeInBytes, s'.hot, s'.disk)
  {
    match m {
      case OriginAnswers(t, up, stored) => DiskStep(w, maxSizeInBytes, s, t, up, stored);
      case Store(t, dropped) => HotStep(w, maxSizeInBytes, s, t, dropped);
      case EvictHot(hashes) => SmallerMap(s.hot, hashes);
      case _ =>
    }
  }

  lemma SmallerMap(hot: map<string, Item>, hashes: set<string>)
    ensures |hot - hashes| <= |hot|
  {
    var kept := hot - hashes;
    assert hot.Keys == kept.Keys + (hot.Keys - kept.Keys);
  }

  /** The origin's answer, decrypted, is the truth if it is not an error. */
  lemma AnswerIsTrue(w: World, req: Request, up: bool)
    requires w.Conforms(req)
    requires up || req.hash !in w.reliable
    ensures DataOk(w, req, w.GetFunc(req.use, if up && req.hash in w.blobs then Some(w.blobs[req.hash]) else None))
  {
    var fetched := if up && req.hash in w.blobs then Some(w.blobs[req.hash]) else None;
    if w.GetFunc(req.use, fetched).Some? {
      FetchedIsTrue(w, req, fetched);
    }
  }

  lemma DiskStep(w: World, maxSizeInBytes: nat, s: State, t: nat, up: bool, stored: bool)
    requires Inv(w, maxSizeInBytes, s) && Enabled(w, maxSizeInBytes, s, OriginAnswers(t, up, stored))
    ensures w.DiskAgrees(Next(w, maxSizeInBytes, s, OriginAnswers(t, up, stored)).disk)
  {
    assert CallerOk(w, s, t, s.callers[t]);
    AnswerIsTrue(w, At(s, t).req, up);
  }

  /** What a leader makes of good data is a good outcome. */
  lemma ItemIsTrue(w: World, req: Request, data: Option<Bytes>)
    requires DataOk(w, req, data)
    ensures OutcomeOk(w, req, ItemOf(w, req, data))
  {
    if req.hash in w.blobs && (data.Some? || req.hash in w.reliable) {
      if data.Some? {
        PresentedIsTrue(w, req, data.value);
      }
    }
  }

  lemma HotGrows(w: World, hot: map<string, Item>, dropped: set<string>, req: Request, item: Item)
    requires w.HotAgrees(hot) && w.Conforms(req) && w.Truth(req) == Some(item)
    ensures w.HotAgrees((hot - dropped)[req.hash := item])
  {
  }

  lemma HotStep(w: World, maxSizeInBytes: nat, s: State, t: nat, dropped: set<string>)
    requires CachesAgree(w, maxSizeInBytes, s.hot, s.disk) && CallersOk(w, s)
    requires Enabled(w, maxSizeInBytes, s, Store(t, dropped))
    ensures w.HotAgrees(HotWith(s, At(s, t).req, ItemOf(w, At(s, t).req, At(s, t).data), dropped))
  {
    assert CallerOk(w, s, t, s.callers[t]);
    var Fetched(req, f, data) := At(s, t);
    ItemIsTrue(w, req, data);
    var item := ItemOf(w, req, data);
    if item.Some? {
      HotGrows(w, s.hot, dropped, req, item.value);
    }
  }

  lemma InAirStep(w: World, maxSizeInBytes: nat, s: State, m: Move)
    requires InAirOk(s) && CallersOk(w, s) && Enabled(w, maxSizeInBytes, s, m)
    ensures InAirOk(Next(w, maxSizeInBytes, s, m))
  {
    if m.Land? {
      LandIs(w, maxSizeInBytes, s, m.t);
    } else if m.Enter? {
      EnterIs(w, maxSizeInBytes, s, m.t);
    } else {
      QuietStep(w, maxSizeInBytes, s, m);
    }
  }

  /** A landing moves its leader on, closes its flight and takes it out of the air. */
  lemma LandIs(w: World, maxSizeInBytes: nat, s: State, t: nat)
    requires CallersOk(w, s) && Enabled(w, maxSizeInBytes, s, Land(t))
    ensures t in s.callers && CallerOk(w, s, t, s.callers[t])
    ensures var s' := Next(w, maxSizeInBytes, s, Land(t));
            var Landing(req, f, outcome) := s.callers[t];
            && s'.callers == s.callers[t := Returned(req, outcome)]
            && s'.flights == s.flights[f := Flight(req.hash, t, Some(outcome))]
            && s'.inAir == s.inAir - {req.hash}
  {
    assert CallerOk(w, s, t, s.callers[t]);
  }

  /** Entering joins the flight in the air for the hash or else registers a new one. */
  lemma EnterIs(w: World, maxSizeInBytes: nat, s: State, t: nat)
    requires Enabled(w, maxSizeInBytes, s, Enter(t))
    ensures var s' := Next(w, maxSizeInBytes, s, Enter(t));
            var hash := At(s, t).req.hash;
            if hash in s.inAir then s'.flights == s.flights && s'.inAir == s.inAir
            else s'.flights == s.flights + [Flight(hash, t, None)] && s'.inAir == s.inAir[hash := |s.flights|]
  {
  }

  /** Only entering and landing touch the flights. */
  lemma QuietStep(w: World, maxSizeInBytes: nat, s: State, m: Move)
    requires Enabled(w, maxSizeInBytes, s, m) && !m.Enter? && !m.Land?
    ensures Next(w, maxSizeInBytes, s, m).flights == s.flights && Next(w, maxSizeInBytes, s, m).inAir == s.inAir
  {
  }

  lemma Unmoved(w: World, maxSizeInBytes: nat, s: State, m: Move, t: nat)
    requires Enabled(w, maxSizeInBytes, s, m) && t in s.callers && (m.EvictHot? || m.EvictDisk? || t != m.t)
    ensures var s' := Next(w, maxSizeInBytes, s, m); t in s'.callers && s'.callers[t] == s.callers[t]
  {
  }

  /** A mover that leads a flight leads it afterwards, unless it lands it. */
  lemma LeadersLead(w: World, maxSizeInBytes: nat, s: State, m: Move, f: nat)
    requires Enabled(w, maxSizeInBytes, s, m) && !m.EvictHot? && !m.EvictDisk? && !m.Land? && At(s, m.t).Leads(f)
    ensures At(Next(w, maxSizeInBytes, s, m), m.t).Leads(f)
  {
  }

  lemma FlightsStep(w: World, maxSizeInBytes: nat, s: State, m: Move)
    requires Inv(w, maxSizeInBytes, s) && Enabled(w, maxSizeInBytes, s, m)
    ensures FlightsOk(w, Next(w, maxSizeInBytes, s, m))
  {
    if m.Enter? {
      FlightsAfterEnter(w, maxSizeInBytes, s, m.t);
    } else if m.Land? {
      FlightsAfterLand(w, maxSizeInBytes, s, m.t);
    } else {
      QuietStep(w, maxSizeInBytes, s, m);
      var s' := Next(w, maxSizeInBytes, s, m);
      forall f: nat | f < |s.flights|
        ensures FlightOk(w, s', f)
      {
        assert FlightOk(w, s, f);
        if s.flights[f].landed.None? {
          if m.EvictHot? || m.EvictDisk? || s.flights[f].leader != m.t {
            Unmoved(w, maxSizeInBytes, s, m, s.flights[f].leader);
          } else {
            LeadersLead(w, maxSizeInBytes, s, m, f);
          }
        }
      }
    }
  }

  lemma FlightsAfterEnter(w: World, maxSizeInBytes: nat, s: State, t: nat)
    requires Inv(w, maxSizeInBytes, s) && Enabled(w, maxSizeInBytes, s, Enter(t))
    ensures FlightsOk(w, Next(w, maxSizeInBytes, s, Enter(t)))
  {
    var s' := Next(w, maxSizeInBytes, s, Enter(t));
    EnterIs(w, maxSizeInBytes, s, t);
    forall f: nat | f < |s'.flights|
      ensures FlightOk(w, s', f)
    {
      if f < |s.flights| {
        assert FlightOk(w, s, f);
        if s.flights[f].landed.None? {
          Unmoved(w, maxSizeInBytes, s, Enter(t), s.flights[f].leader);
        }
      }
    }
  }

  lemma FlightsAfterLand(w: World, maxSizeInBytes: nat, s: State, t: nat)
    requires Inv(w, maxSizeInBytes, s) && Enabled(w, maxSizeInBytes, s, Land(t))
    ensures FlightsOk(w, Next(w, maxSizeInBytes, s, Land(t)))
  {
    var s' := Next(w, maxSizeInBytes, s, Land(t));
    LandIs(w, maxSizeInBytes, s, t);
    var Landing(req, f, outcome) := s.callers[t];
    forall g: nat | g < |s'.flights|
      ensures FlightOk(w, s', g)
    {
      assert FlightOk(w, s, g);
      if g != f && s.flights[g].landed.None? {
        Unmoved(w, maxSizeInBytes, s, Land(t), s.flights[g].leader);
      }
    }
  }

  lemma OtherCallers(w: World, maxSizeInBytes: nat, s: State, m: Move, t: nat)
    requires Inv(w, maxSizeInBytes, s) && Enabled(w, maxSizeInBytes, s, m)
    requires t in s.callers && (m.EvictHot? || m.EvictDisk? || t != m.t)
    ensures var s' := Next(w, maxSizeInBytes, s, m); t in s'.callers && CallerOk(w, s', t, s'.callers[t])
  {
    Unmoved(w, maxSizeInBytes, s, m, t);
    var s' := Next(w, maxSizeInBytes, s, m);
    assert CallerOk(w, s, t, s.callers[t]);
    if m.Enter? {
      OtherAfterEnter(w, maxSizeInBytes, s, m.t, t);
    } else if m.Land? {
      OtherAfterLand(w, maxSizeInBytes, s, m.t, t);
    } else {
      QuietStep(w, maxSizeInBytes, s, m);
      CallerFrame(w, s, s', t, s.callers[t]);
    }
  }

  lemma CallerFrame(w: World, s: State, s': State, t: nat, c: Caller)
    requires CallerOk(w, s, t, c) && s'.flights == s.flights && s'.inAir == s.inAir
    ensures CallerOk(w, s', t, c)
  {
  }

  lemma OtherAfterEnter(w: World, maxSizeInBytes: nat, s: State, mover: nat, t: nat)
    requires Inv(w, maxSizeInBytes, s) && Enabled(w, maxSizeInBytes, s, Enter(mover))
    requires t in s.callers && t != mover
    ensures CallerOk(w, Next(w, maxSizeInBytes, s, Enter(mover)), t, s.callers[t])
  {
    assert CallerOk(w, s, t, s.callers[t]);
  }

  lemma OtherAfterLand(w: World, maxSizeInBytes: nat, s: State, mover: nat, t: nat)
    requires Inv(w, maxSizeInBytes, s) && Enabled(w, maxSizeInBytes, s, Land(mover))
    requires t in s.callers && t != mover
    ensures CallerOk(w, Next(w, maxSizeInBytes, s, Land(mover)), t, s.callers[t])
  {
    LandIs(w, maxSizeInBytes, s, mover);
    assert CallerOk(w, s, t, s.callers[t]);
    var s' := Next(w, maxSizeInBytes, s, Land(mover));
    var Landing(req, f, outcome) := s.callers[mover];
    LandingFrame(w, s, s', mover, req, f, outcome, t, s.callers[t]);
  }

  lemma LandingFrame(w: World, s: State, s': State, mover: nat, req: Request, f: nat, outcome: Option<Item>,
                     t: nat, c: Caller)
    requires LeaderOk(w, s, mover, req, f) && CallerOk(w, s, t, c) && t != mover
    requires s'.flights == s.flights[f := Flight(req.hash, mover, Some(outcome))] && s'.inAir == s.inAir - {req.hash}
    ensures CallerOk(w, s', t, c)
  {
  }

  lemma MovingCaller(w: World, maxSizeInBytes: nat, s: State, m: Move)
    requires Inv(w, maxSizeInBytes, s) && Enabled(w, maxSizeInBytes, s, m) && Conforming(w, m)
    requires !m.EvictHot? && !m.EvictDisk?
    ensures var s' := Next(w, maxSizeInBytes, s, m); CallerOk(w, s', m.t, At(s', m.t))
  {
    if m.t in s.callers {
      assert CallerOk(w, s, m.t, s.callers[m.t]);
    }
    match m {
      case Lookup(t) => LookupGives(w, maxSizeInBytes, s, t);
      case OriginAnswers(t, up, stored) => AnswerIsTrue(w, At(s, t).req, up);
      case AskDisk(t) => DiskGives(w, maxSizeInBytes, s, t);
      case Store(t, dropped) => StoreGives(w, maxSizeInBytes, s, t, dropped);
      case Wake(t) => WakeGives(w, maxSizeInBytes, s, t);
      case Land(t) =>
      case _ =>
    }
  }

  lemma LookupGives(w: World, maxSizeInBytes: nat, s: State, t: nat)
    requires Inv(w, maxSizeInBytes, s) && Enabled(w, maxSizeInBytes, s, Lookup(t))
    ensures var s' := Next(w, maxSizeInBytes, s, Lookup(t)); CallerOk(w, s', t, At(s', t))
  {
    assert CallerOk(w, s, t, s.callers[t]);
  }

  lemma DiskGives(w: World, maxSizeInBytes: nat, s: State, t: nat)
    requires Inv(w, maxSizeInBytes, s) && Enabled(w, maxSizeInBytes, s, AskDisk(t))
    ensures var s' := Next(w, maxSizeInBytes, s, AskDisk(t)); CallerOk(w, s', t, At(s', t))
  {
    assert CallerOk(w, s, t, s.callers[t]);
  }

  lemma StoreGives(w: World, maxSizeInBytes: nat, s: State, t: nat, dropped: set<string>)
    requires Inv(w, maxSizeInBytes, s) && Enabled(w, maxSizeInBytes, s, Store(t, dropped))
    ensures var s' := Next(w, maxSizeInBytes, s, Store(t, dropped)); CallerOk(w, s', t, At(s', t))
  {
    assert CallerOk(w, s, t, s.callers[t]);
    ItemIsTrue(w, At(s, t).req, At(s, t).data);
  }

  lemma WakeGives(w: World, maxSizeInBytes: nat, s: State, t: nat)
    requires Inv(w, maxSizeInBytes, s) && Enabled(w, maxSizeInBytes, s, Wake(t))
    ensures var s' := Next(w, maxSizeInBytes, s, Wake(t)); CallerOk(w, s', t, At(s', t))
  {
    assert CallerOk(w, s, t, s.callers[t]);
    assert FlightOk(w, s, At(s, t).flight);
  }

  /** Every step, by any caller or eviction, keeps the invariant: this is what each caller relies on from the others. */
  lemma StepKeepsInv(w: World, maxSizeInBytes: nat, s: State, m: Move)
    requires Inv(w, maxSizeInBytes, s) && Enabled(w, maxSizeInBytes, s, m) && Conforming(w, m)
    ensures Inv(w, maxSizeInBytes, Next(w, maxSizeInBytes, s, m))
  {
    var s' := Next(w, maxSizeInBytes, s, m);
    CachesStep(w, maxSizeInBytes, s, m);
    CountsStep(w, maxSizeInBytes, s, m);
    InAirStep(w, maxSizeInBytes, s, m);
    FlightsStep(w, maxSizeInBytes, s, m);
    forall t | t in s'.callers
      ensures CallerOk(w, s', t, s'.callers[t])
    {
      if m.EvictHot? || m.EvictDisk? || t != m.t {
        OtherCallers(w, maxSizeInBytes, s, m, t);
      } else {
        MovingCaller(w, maxSizeInBytes, s, m);
      }
    }
  }

  lemma {:induction false} InvOfRun(w: World, maxSizeInBytes: nat, moves: seq<Move>)
    requires Ran(w, maxSizeInBytes, moves)
    ensures Inv(w, maxSizeInBytes, After(w, maxSizeInBytes, moves).value)
  {
    if moves == [] {
      var none: map<string, Item> := map[];
      assert |none| == 0;
      assert forall hash :: PendingCallers(map[], hash) == {};
    } else {
      var n := |moves| - 1;
      InvOfRun(w, maxSizeInBytes, moves[..n]);
      StepKeepsInv(w, maxSizeInBytes, After(w, maxSizeInBytes, moves[..n]).value, moves[n]);
    }
  }

  // ---- what the invariant says about every reachable state

  /** Agreement: an error-free result is the decrypted or parsed origin blob, errors only come from fetches that can
      fail, and no entry is read back as the wrong kind. */
  lemma ResultsAgree(w: World, maxSizeInBytes: nat, moves: seq<Move>, t: nat)
    requires Ran(w, maxSizeInBytes, moves)
    ensures var s := After(w, maxSizeInBytes, moves).value;
            && !At(s, t).Panicked?
            && (At(s, t).Returned? && (At(s, t).outcome.Some? || At(s, t).req.hash in w.reliable) ==>
                  w.Truth(At(s, t).req) == At(s, t).outcome)
  {
    InvOfRun(w, maxSizeInBytes, moves);
    ResultAgrees(w, After(w, maxSizeInBytes, moves).value, t);
  }

  lemma ResultAgrees(w: World, s: State, t: nat)
    requires CallersOk(w, s)
    ensures !At(s, t).Panicked?
    ensures At(s, t).Returned? ==> OutcomeOk(w, At(s, t).req, At(s, t).outcome)
  {
    if t in s.callers {
      assert CallerOk(w, s, t, s.callers[t]);
    }
  }

  /** At most one flight of a hash is being led, by one caller: no two callers are inside the decrypted cache for it. */
  lemma OneLeaderPerHash(w: World, maxSizeInBytes: nat, moves: seq<Move>, t: nat, f: nat, t': nat, f': nat)
    requires Ran(w, maxSizeInBytes, moves)
    ensures var s := After(w, maxSizeInBytes, moves).value;
            At(s, t).Leads(f) && At(s, t').Leads(f') && At(s, t).req.hash == At(s, t').req.hash ==> t == t' && f == f'
  {
    InvOfRun(w, maxSizeInBytes, moves);
    LeadersAreOne(w, After(w, maxSizeInBytes, moves).value, t, f, t', f');
  }

  lemma LeadersAreOne(w: World, s: State, t: nat, f: nat, t': nat, f': nat)
    requires CallersOk(w, s)
    ensures At(s, t).Leads(f) && At(s, t').Leads(f') && At(s, t).req.hash == At(s, t').req.hash ==> t == t' && f == f'
  {
    if At(s, t).Leads(f) && At(s, t').Leads(f') {
      assert CallerOk(w, s, t, s.callers[t]) && CallerOk(w, s, t', s.callers[t']);
    }
  }

  /** At most one fetch of a hash from the network is in flight. */
  lemma OneFetchPerHash(w: World, maxSizeInBytes: nat, moves: seq<Move>, t: nat, t': nat)
    requires Ran(w, maxSizeInBytes, moves)
    ensures var s := After(w, maxSizeInBytes, moves).value;
            At(s, t).Fetching? && At(s, t').Fetching? && At(s, t).req.hash == At(s, t').req.hash ==> t == t'
  {
    InvOfRun(w, maxSizeInBytes, moves);
    var s := After(w, maxSizeInBytes, moves).value;
    if At(s, t).Fetching? && At(s, t').Fetching? {
      OneLeaderPerHash(w, maxSizeInBytes, moves, t, At(s, t).flight, t', At(s, t').flight);
    }
  }

  /** A caller that joined a flight has exactly one live leader, at work on the same hash, until the flight lands. */
  lemma WaiterHasOneLeader(w: World, maxSizeInBytes: nat, moves: seq<Move>, t: nat) returns (leader: nat)
    requires Ran(w, maxSizeInBytes, moves)
    requires At(After(w, maxSizeInBytes, moves).value, t).Waiting?
    ensures var s := After(w, maxSizeInBytes, moves).value;
            var f := At(s, t).flight;
            && f < |s.flights|
            && (s.flights[f].landed.None? ==>
                  && At(s, leader).Leads(f) && At(s, leader).req.hash == At(s, t).req.hash
                  && forall other :: At(s, other).Leads(f) ==> other == leader)
  {
    InvOfRun(w, maxSizeInBytes, moves);
    leader := LeaderOfWaiter(w, After(w, maxSizeInBytes, moves).value, t);
  }

  lemma LeaderOfWaiter(w: World, s: State, t: nat) returns (leader: nat)
    requires CallersOk(w, s) && FlightsOk(w, s) && At(s, t).Waiting?
    ensures var f := At(s, t).flight;
            && f < |s.flights|
            && (s.flights[f].landed.None? ==>
                  && At(s, leader).Leads(f) && At(s, leader).req.hash == At(s, t).req.hash
                  && forall other :: At(s, other).Leads(f) ==> other == leader)
  {
    assert CallerOk(w, s, t, s.callers[t]);
    var f := At(s, t).flight;
    assert FlightOk(w, s, f);
    leader := s.flights[f].leader;
    if s.flights[f].landed.None? {
      assert CallerOk(w, s, leader, s.callers[leader]);
      forall other | At(s, other).Leads(f)
        ensures other == leader
      {
        assert CallerOk(w, s, other, s.callers[other]);
      }
    }
  }

  /** A flight keeps its hash and leader, and once landed its result, through every later step. */
  lemma LandedStays(w: World, maxSizeInBytes: nat, s: State, m: Move, f: nat)
    requires CallersOk(w, s) && Enabled(w, maxSizeInBytes, s, m) && f < |s.flights|
    ensures var s' := Next(w, maxSizeInBytes, s, m);
            && f < |s'.flights|
            && s'.flights[f].hash == s.flights[f].hash && s'.flights[f].leader == s.flights[f].leader
            && (s.flights[f].landed.Some? ==> s'.flights[f] == s.flights[f])
  {
    if m.Land? {
      LandIs(w, maxSizeInBytes, s, m.t);
    } else if m.Enter? {
      EnterIs(w, maxSizeInBytes, s, m.t);
    } else {
      QuietStep(w, maxSizeInBytes, s, m);
    }
  }

  /** A flight lands only by its leader's step, with the result that the leader returns. */
  lemma LeaderLands(w: World, maxSizeInBytes: nat, s: State, m: Move, f: nat)
    requires CallersOk(w, s) && Enabled(w, maxSizeInBytes, s, m) && f < |s.flights|
    requires s.flights[f].landed.None? && Next(w, maxSizeInBytes, s, m).flights[f].landed.Some?
    ensures var s' := Next(w, maxSizeInBytes, s, m);
            && m == Land(s.flights[f].leader)
            && At(s, m.t).req.hash == s.flights[f].hash
            && At(s', m.t) == Returned(At(s, m.t).req, s'.flights[f].landed.value)
  {
    if m.Land? {
      LandIs(w, maxSizeInBytes, s, m.t);
    } else if m.Enter? {
      EnterIs(w, maxSizeInBytes, s, m.t);
    } else {
      QuietStep(w, maxSizeInBytes, s, m);
    }
  }

  /** What a flight lands with, and so what every caller that joined it gets, is the truth or an error; for a hash whose
      fetch cannot fail it is the truth. */
  lemma LandedIsTrue(w: World, maxSizeInBytes: nat, moves: seq<Move>, f: nat)
    requires Ran(w, maxSizeInBytes, moves) && f < |After(w, maxSizeInBytes, moves).value.flights|
    ensures var fl := After(w, maxSizeInBytes, moves).value.flights[f];
            var truth := w.Truth(Request(fl.hash, w.use(fl.hash)));
            && (fl.landed.Some? ==> fl.landed == Some(truth) || fl.landed == Some(None))
            && (fl.landed.Some? && fl.hash in w.reliable ==> fl.landed == Some(truth))
  {
    InvOfRun(w, maxSizeInBytes, moves);
    assert FlightOk(w, After(w, maxSizeInBytes, moves).value, f);
  }

  lemma RanBefore(w: World, maxSizeInBytes: nat, moves: seq<Move>)
    requires Ran(w, maxSizeInBytes, moves) && moves != []
    ensures var n := |moves| - 1;
            && Ran(w, maxSizeInBytes, moves[..n])
            && Enabled(w, maxSizeInBytes, After(w, maxSizeInBytes, moves[..n]).value, moves[n])
            && After(w, maxSizeInBytes, moves)
               == Some(Next(w, maxSizeInBytes, After(w, maxSizeInBytes, moves[..n]).value, moves[n]))
  {
  }

  /** Move k of the run ends with the leader of flight f landing it and returning the given outcome. */
  ghost predicate LandedAt(w: World, maxSizeInBytes: nat, moves: seq<Move>, k: nat, fl: Flight)
  {
    && k < |moves| && moves[k] == Land(fl.leader)
    && var after := After(w, maxSizeInBytes, moves[..k + 1]);
       && after.Some?
       && At(after.value, fl.leader).Returned?
       && At(after.value, fl.leader).req.hash == fl.hash
       && fl.landed == Some(At(after.value, fl.leader).outcome)
  }

  lemma LandedEarlier(w: World, maxSizeInBytes: nat, moves: seq<Move>, n: nat, k: nat, fl: Flight)
    requires n <= |moves| && LandedAt(w, maxSizeInBytes, moves[..n], k, fl)
    ensures LandedAt(w, maxSizeInBytes, moves, k, fl)
  {
    assert moves[..n][..k + 1] == moves[..k + 1];
  }

  /** A landed flight was landed by its leader, who returned what the flight landed with. */
  lemma {:induction false} FlightWasLanded(w: World, maxSizeInBytes: nat, moves: seq<Move>, f: nat) returns (k: nat)
    requires Ran(w, maxSizeInBytes, moves) && f < |After(w, maxSizeInBytes, moves).value.flights|
    requires After(w, maxSizeInBytes, moves).value.flights[f].landed.Some?
    ensures LandedAt(w, maxSizeInBytes, moves, k, After(w, maxSizeInBytes, moves).value.flights[f])
  {
    var n := |moves| - 1;
    RanBefore(w, maxSizeInBytes, moves);
    InvOfRun(w, maxSizeInBytes, moves[..n]);
    var s, m := After(w, maxSizeInBytes, moves[..n]).value, moves[n];
    LandedBefore(w, maxSizeInBytes, s, m, f);
    if s.flights[f].landed.Some? {
      LandedStays(w, maxSizeInBytes, s, m, f);
      k := FlightWasLanded(w, maxSizeInBytes, moves[..n], f);
      LandedEarlier(w, maxSizeInBytes, moves, n, k, s.flights[f]);
    } else {
      LandsNow(w, maxSizeInBytes, moves, s, f);
      k := n;
    }
  }

  lemma LandsNow(w: World, maxSizeInBytes: nat, moves: seq<Move>, s: State, f: nat)
    requires moves != [] && CallersOk(w, s) && f < |s.flights| && s.flights[f].landed.None?
    requires var m := moves[|moves| - 1];
             && Enabled(w, maxSizeInBytes, s, m)
             && After(w, maxSizeInBytes, moves) == Some(Next(w, maxSizeInBytes, s, m))
             && Next(w, maxSizeInBytes, s, m).flights[f].landed.Some?
    ensures LandedAt(w, maxSizeInBytes, moves, |moves| - 1, After(w, maxSizeInBytes, moves).value.flights[f])
  {
    var m := moves[|moves| - 1];
    LeaderLands(w, maxSizeInBytes, s, m, f);
    LandIs(w, maxSizeInBytes, s, m.t);
    assert moves[..|moves| - 1 + 1] == moves;
  }

  /** A flight does not land in the step that registers it. */
  lemma LandedBefore(w: World, maxSizeInBytes: nat, s: State, m: Move, f: nat)
    requires CallersOk(w, s) && Enabled(w, maxSizeInBytes, s, m)
    requires f < |Next(w, maxSizeInBytes, s, m).flights| && Next(w, maxSizeInBytes, s, m).flights[f].landed.Some?
    ensures f < |s.flights|
  {
    if m.Land? {
      LandIs(w, maxSizeInBytes, s, m.t);
    } else if m.Enter? {
      EnterIs(w, maxSizeInBytes, s, m.t);
    } else {
      QuietStep(w, maxSizeInBytes, s, m);
    }
  }

  /** Whoever wakes from a flight returns what the leader of the flight returned when it landed, earlier in the run. */
  lemma JoinedGetsLeaders(w: World, maxSizeInBytes: nat, moves: seq<Move>, t: nat) returns (k: nat)
    requires Ran(w, maxSizeInBytes, moves) && Enabled(w, maxSizeInBytes, After(w, maxSizeInBytes, moves).value, Wake(t))
    ensures var s := After(w, maxSizeInBytes, moves).value;
            var fl := s.flights[At(s, t).flight];
            && LandedAt(w, maxSizeInBytes, moves, k, fl)
            && var leader := At(After(w, maxSizeInBytes, moves[..k + 1]).value, fl.leader);
               && leader.req.hash == At(s, t).req.hash
               && At(Next(w, maxSizeInBytes, s, Wake(t)), t) == Returned(At(s, t).req, leader.outcome)
  {
    InvOfRun(w, maxSizeInBytes, moves);
    var s := After(w, maxSizeInBytes, moves).value;
    assert CallerOk(w, s, t, s.callers[t]);
    k := FlightWasLanded(w, maxSizeInBytes, moves, At(s, t).flight);
    WaiterGetsLanded(w, maxSizeInBytes, s, t);
  }

  /** Move k of the run stores the item under the hash, by a leader about to land with it. */
  ghost predicate StoredAt(w: World, maxSizeInBytes: nat, moves: seq<Move>, k: nat, hash: string, item: Item)
  {
    && k < |moves| && moves[k].Store?
    && var after := After(w, maxSizeInBytes, moves[..k + 1]);
       && after.Some?
       && var leader := At(after.value, moves[k].t);
          leader.Landing? && leader.req.hash == hash && leader.outcome == Some(item)
  }

  lemma StoredEarlier(w: World, maxSizeInBytes: nat, moves: seq<Move>, n: nat, k: nat, hash: string, item: Item)
    requires n <= |moves| && StoredAt(w, maxSizeInBytes, moves[..n], k, hash, item)
    ensures StoredAt(w, maxSizeInBytes, moves, k, hash, item)
  {
    assert moves[..n][..k + 1] == moves[..k + 1];
  }

  /** Without a store, the hot cache gains nothing. */
  lemma HotShrinks(w: World, maxSizeInBytes: nat, s: State, m: Move)
    requires Enabled(w, maxSizeInBytes, s, m) && !m.Store?
    ensures Next(w, maxSizeInBytes, s, m).hot == if m.EvictHot? then s.hot - m.hashes else s.hot
  {
  }

  /** A store puts in what its leader goes on to land with, and nothing else. */
  lemma StoreIs(w: World, maxSizeInBytes: nat, s: State, t: nat, dropped: set<string>)
    requires Enabled(w, maxSizeInBytes, s, Store(t, dropped))
    ensures var s' := Next(w, maxSizeInBytes, s, Store(t, dropped));
            var leader := At(s', t);
            && leader.Landing?
            && s'.hot == match leader.outcome
                         case None => s.hot
                         case Some(item) => (s.hot - dropped)[leader.req.hash := item]
  {
  }

  /** An entry is new only right after a leader stored what it goes on to land with. */
  lemma NewEntryIsStored(w: World, maxSizeInBytes: nat, s: State, m: Move, s': State, hash: string)
    requires Enabled(w, maxSizeInBytes, s, m) && s' == Next(w, maxSizeInBytes, s, m)
    requires hash in s'.hot && !(hash in s.hot && s.hot[hash] == s'.hot[hash])
    ensures m.Store?
    ensures var leader := At(s', m.t);
            leader.Landing? && leader.req.hash == hash && leader.outcome == Some(s'.hot[hash])
  {
    if m.Store? {
      StoreIs(w, maxSizeInBytes, s, m.t, m.dropped);
    } else {
      HotShrinks(w, maxSizeInBytes, s, m);
    }
  }

  /** Errors are never cached: in every reachable state each entry was stored by a leader that landed with it. */
  lemma {:induction false} EntriesAreResults(w: World, maxSizeInBytes: nat, moves: seq<Move>, hash: string)
    returns (k: nat)
    requires Ran(w, maxSizeInBytes, moves) && hash in After(w, maxSizeInBytes, moves).value.hot
    ensures StoredAt(w, maxSizeInBytes, moves, k, hash, After(w, maxSizeInBytes, moves).value.hot[hash])
  {
    var n := |moves| - 1;
    RanBefore(w, maxSizeInBytes, moves);
    var s, item := After(w, maxSizeInBytes, moves[..n]).value, After(w, maxSizeInBytes, moves).value.hot[hash];
    if hash in s.hot && s.hot[hash] == item {
      k := EntriesAreResults(w, maxSizeInBytes, moves[..n], hash);
      StoredEarlier(w, maxSizeInBytes, moves, n, k, hash, item);
    } else {
      NewEntryIsStored(w, maxSizeInBytes, s, moves[n], After(w, maxSizeInBytes, moves).value, hash);
      k := n;
      assert moves[..n + 1] == moves;
    }
  }

  /** A joined caller returns exactly what its flight landed with, never a panic. */
  lemma WaiterGetsLanded(w: World, maxSizeInBytes: nat, s: State, t: nat)
    requires Inv(w, maxSizeInBytes, s) && Enabled(w, maxSizeInBytes, s, Wake(t))
    ensures At(Next(w, maxSizeInBytes, s, Wake(t)), t) ==
              Returned(At(s, t).req, s.flights[At(s, t).flight].landed.value)
  {
    WakeGives(w, maxSizeInBytes, s, t);
  }

  /** The hashes that flights were started for, in order; each flight calls the decrypted cache once. */
  function Hashes(flights: seq<Flight>): (hashes: seq<string>)
    ensures |hashes| == |flights|
  {
    seq(|flights|, f requires 0 <= f < |flights| => flights[f].hash)
  }

  function MissedCallers(callers: map<nat, Caller>, hash: string): set<nat>
  {
    set t | t in callers && callers[t].Missed? && callers[t].req.hash == hash
  }

  /** Flights started, and callers that are yet to start or join one, against lookups that missed. */
  ghost predicate StartsOk(s: State)
  {
    forall hash :: multiset(Hashes(s.flights))[hash] + |MissedCallers(s.callers, hash)| <= s.misses[hash]
  }

  lemma MissedAfter(callers: map<nat, Caller>, t: nat, c: Caller, hash: string)
    ensures |MissedCallers(callers[t := c], hash)| ==
              |MissedCallers(callers, hash)|
              - (if t in callers && callers[t].Missed? && callers[t].req.hash == hash then 1 else 0)
              + (if c.Missed? && c.req.hash == hash then 1 else 0)
  {
    var before, after := MissedCallers(callers, hash), MissedCallers(callers[t := c], hash);
    var others := before - {t};
    assert before == if t in callers && callers[t].Missed? && callers[t].req.hash == hash then others + {t} else others;
    assert after == if c.Missed? && c.req.hash == hash then others + {t} else others;
  }

  /** No move but a lookup makes a caller miss or counts a miss. */
  lemma NoMiss(w: World, maxSizeInBytes: nat, s: State, m: Move)
    requires Enabled(w, maxSizeInBytes, s, m) && !m.Lookup?
    ensures var s' := Next(w, maxSizeInBytes, s, m);
            && s'.misses == s.misses
            && if m.EvictHot? || m.EvictDisk? then s'.callers == s.callers
               else s'.callers == s.callers[m.t := At(s', m.t)] && !At(s', m.t).Missed?
  {
  }

  lemma StartsLookup(w: World, maxSizeInBytes: nat, s: State, t: nat)
    requires StartsOk(s) && Enabled(w, maxSizeInBytes, s, Lookup(t))
    ensures StartsOk(Next(w, maxSizeInBytes, s, Lookup(t)))
  {
    var s' := Next(w, maxSizeInBytes, s, Lookup(t));
    forall hash
      ensures multiset(Hashes(s'.flights))[hash] + |MissedCallers(s'.callers, hash)| <= s'.misses[hash]
    {
      MissedAfter(s.callers, t, s'.callers[t], hash);
    }
  }

  /** A flight starts in place of a caller that missed. */
  lemma StartsEnter(w: World, maxSizeInBytes: nat, s: State, t: nat)
    requires StartsOk(s) && Enabled(w, maxSizeInBytes, s, Enter(t))
    ensures StartsOk(Next(w, maxSizeInBytes, s, Enter(t)))
  {
    var s' := Next(w, maxSizeInBytes, s, Enter(t));
    EnterIs(w, maxSizeInBytes, s, t);
    NoMiss(w, maxSizeInBytes, s, Enter(t));
    var req := At(s, t).req;
    assert req.hash !in s.inAir ==> Hashes(s'.flights) == Hashes(s.flights) + [req.hash];
    forall hash
      ensures multiset(Hashes(s'.flights))[hash] + |MissedCallers(s'.callers, hash)| <= s'.misses[hash]
    {
      MissedAfter(s.callers, t, At(s', t), hash);
    }
  }

  lemma StartsStep(w: World, maxSizeInBytes: nat, s: State, m: Move)
    requires CallersOk(w, s) && StartsOk(s) && Enabled(w, maxSizeInBytes, s, m)
    ensures StartsOk(Next(w, maxSizeInBytes, s, m))
  {
    if m.Lookup? {
      StartsLookup(w, maxSizeInBytes, s, m.t);
    } else if m.Enter? {
      StartsEnter(w, maxSizeInBytes, s, m.t);
    } else {
      var s' := Next(w, maxSizeInBytes, s, m);
      NoMiss(w, maxSizeInBytes, s, m);
      SameHashes(w, maxSizeInBytes, s, m);
      forall hash
        ensures |MissedCallers(s'.callers, hash)| <= |MissedCallers(s.callers, hash)|
      {
        if !m.EvictHot? && !m.EvictDisk? {
          MissedAfter(s.callers, m.t, At(s', m.t), hash);
        }
      }
    }
  }

  lemma SameHashes(w: World, maxSizeInBytes: nat, s: State, m: Move)
    requires CallersOk(w, s) && Enabled(w, maxSizeInBytes, s, m) && !m.Enter?
    ensures Hashes(Next(w, maxSizeInBytes, s, m).flights) == Hashes(s.flights)
  {
    if m.Land? {
      LandIs(w, maxSizeInBytes, s, m.t);
    } else {
      QuietStep(w, maxSizeInBytes, s, m);
    }
  }

  /** Calls of the decrypted cache for a hash, one for each flight, and callers about to make or join one never
      outnumber the lookups that missed it. */
  lemma FlightsAreMisses(w: World, maxSizeInBytes: nat, moves: seq<Move>, hash: string)
    requires Ran(w, maxSizeInBytes, moves)
    ensures var s := After(w, maxSizeInBytes, moves).value;
            multiset(Hashes(s.flights))[hash] + |MissedCallers(s.callers, hash)| <= s.misses[hash]
  {
    StartsOfRun(w, maxSizeInBytes, moves);
  }

  lemma {:induction false} StartsOfRun(w: World, maxSizeInBytes: nat, moves: seq<Move>)
    requires Ran(w, maxSizeInBytes, moves)
    ensures StartsOk(After(w, maxSizeInBytes, moves).value)
  {
    if moves == [] {
      assert forall hash :: MissedCallers(map[], hash) == {};
      assert Hashes([]) == [];
    } else {
      var n := |moves| - 1;
      RanBefore(w, maxSizeInBytes, moves);
      InvOfRun(w, maxSizeInBytes, moves[..n]);
      StartsOfRun(w, maxSizeInBytes, moves[..n]);
      StartsStep(w, maxSizeInBytes, After(w, maxSizeInBytes, moves[..n]).value, moves[n]);
    }
  }

  /** The hash that a move looks up in vain in a state, or fetches from the network. */
  function Missing(s: State, m: Move): multiset<string>
  {
    if m.Lookup? && At(s, m.t).Looking? && At(s, m.t).req.hash !in s.hot then multiset{At(s, m.t).req.hash}
    else multiset{}
  }

  function PastDisk(s: State, m: Move): multiset<string>
  {
    if m.AskDisk? && At(s, m.t).Leading? && At(s, m.t).req.hash !in s.disk then multiset{At(s, m.t).req.hash}
    else multiset{}
  }

  /** Each step counts a miss exactly if it is a lookup in vain, and a fetch exactly if it goes past the disk. */
  lemma StepCounts(w: World, maxSizeInBytes: nat, s: State, m: Move)
    requires Enabled(w, maxSizeInBytes, s, m)
    ensures Next(w, maxSizeInBytes, s, m).misses == s.misses + Missing(s, m)
    ensures Next(w, maxSizeInBytes, s, m).fetches == s.fetches + PastDisk(s, m)
  {
  }

  /** Fetches of a hash from the network never outnumber the lookups that missed it. */
  lemma FetchesAreMisses(w: World, maxSizeInBytes: nat, moves: seq<Move>, hash: string)
    requires Ran(w, maxSizeInBytes, moves)
    ensures var s := After(w, maxSizeInBytes, moves).value; s.fetches[hash] <= s.misses[hash]
  {
    InvOfRun(w, maxSizeInBytes, moves);
  }

  /** The chunk bytes in the hot cache stay within its configured size. */
  lemma MemoryIsBounded(w: World, maxSizeInBytes: nat, moves: seq<Move>)
    requires w.WellFormed() && Ran(w, maxSizeInBytes, moves)
    ensures ChunkBytes(After(w, maxSizeInBytes, moves).value.hot) <= maxSizeInBytes
  {
    InvOfRun(w, maxSizeInBytes, moves);
    HotMemoryBound(w, After(w, maxSizeInBytes, moves).value.hot, maxSizeInBytes);
  }

  /** No caller is stranded: a caller that is not idle can move, or the leader of the flight it waits for can. */
  lemma SomebodyCanMove(w: World, maxSizeInBytes: nat, s: State, t: nat) returns (m: Move)
    requires Inv(w, maxSizeInBytes, s) && 1 <= HotCapacity(maxSizeInBytes) && t in s.callers && !s.callers[t].Idle?
    ensures Enabled(w, maxSizeInBytes, s, m)
    ensures !m.Begin? && !m.EvictHot? && !m.EvictDisk?
    ensures m.t == t || (At(s, t).Waiting? && At(s, m.t).Leads(At(s, t).flight))
  {
    assert CallerOk(w, s, t, s.callers[t]);
    if s.callers[t].Waiting? {
      var f := s.callers[t].flight;
      assert FlightOk(w, s, f);
      if s.flights[f].landed.Some? {
        m := Wake(t);
      } else {
        assert CallerOk(w, s, s.flights[f].leader, s.callers[s.flights[f].leader]);
        m := OwnMove(w, maxSizeInBytes, s, s.flights[f].leader);
      }
    } else {
      m := OwnMove(w, maxSizeInBytes, s, t);
    }
  }

  lemma OwnMove(w: World, maxSizeInBytes: nat, s: State, t: nat) returns (m: Move)
    requires Inv(w, maxSizeInBytes, s) && 1 <= HotCapacity(maxSizeInBytes)
    requires t in s.callers && !s.callers[t].Idle? && !s.callers[t].Waiting?
    ensures Enabled(w, maxSizeInBytes, s, m)
    ensures !m.Begin? && !m.EvictHot? && !m.EvictDisk? && m.t == t
  {
    assert CallerOk(w, s, t, s.callers[t]);
    match s.callers[t] {
      case Looking(_) => m := Lookup(t);
      case Missed(_) => m := Enter(t);
      case Leading(_, _) => m := AskDisk(t);
      case Fetching(_, _) => m := OriginAnswers(t, true, true);
      case Fetched(req, _, data) =>
        var all := s.hot.Keys;
        m := Store(t, all);
        assert s.hot - all == map[];
        var item := ItemOf(w, req, data);
        if item.Some? {
          assert HotWith(s, req, item, all) == map[req.hash := item.value];
        }
      case Landing(_, _, _) => m := Land(t);
      case Returned(_, _) => m := Finish(t);
    }
  }

  // ---- exactly when results agree

  /** Callers make no other requests than these. */
  ghost predicate AsksOnly(moves: seq<Move>, asks: iset<Request>)
  {
    forall m :: m in moves && m.Begin? ==> m.req in asks
  }

  /** No caller holds a wrong result or has panicked. */
  ghost predicate Agrees(w: World, s: State)
  {
    forall t :: t in s.callers ==>
      && !s.callers[t].Panicked?
      && (s.callers[t].Returned? && s.callers[t].outcome.Some? ==> w.Truth(s.callers[t].req) == s.callers[t].outcome)
  }

  ghost predicate AlwaysAgrees(w: World, maxSizeInBytes: nat, asks: iset<Request>)
  {
    forall moves :: AsksOnly(moves, asks) && After(w, maxSizeInBytes, moves).Some? ==>
      Agrees(w, After(w, maxSizeInBytes, moves).value)
  }

  /** A failed fetch shows, for every request that can be made. */
  ghost predicate FailuresShow(w: World, asks: iset<Request>)
  {
    forall req :: req in asks ==> w.FailureShows(req)
  }

  /** All requests that can be made for a stored hash want the same of it: one kind, and the same descriptor or
      bytes. */
  ghost predicate UsesAgree(w: World, asks: iset<Request>)
  {
    forall req, other ::
      req in asks && other in asks && req.hash == other.hash && req.hash in w.blobs ==> w.Alike(req, other)
  }

  /** Results agree with the origin in every run of callers that may make these requests, if and only if failures show
      and uses of a hash agree. */
  lemma AgreementIff(w: World, maxSizeInBytes: nat, asks: iset<Request>)
    requires 1 <= HotCapacity(maxSizeInBytes)
    ensures AlwaysAgrees(w, maxSizeInBytes, asks) <==> FailuresShow(w, asks) && UsesAgree(w, asks)
  {
    if FailuresShow(w, asks) && UsesAgree(w, asks) {
      forall moves | AsksOnly(moves, asks) && After(w, maxSizeInBytes, moves).Some?
        ensures Agrees(w, After(w, maxSizeInBytes, moves).value)
      {
        RunAgrees(w, maxSizeInBytes, asks, moves);
      }
    } else if !FailuresShow(w, asks) {
      var req :| req in asks && !w.FailureShows(req);
      var moves := UnreportedFailure(w, maxSizeInBytes, asks, req);
    } else {
      var req, other :|
        req in asks && other in asks && req.hash == other.hash && req.hash in w.blobs && !w.Alike(req, other);
      var moves := MixedUseMisleads(w, maxSizeInBytes, asks, req, other);
    }
  }

  // ---- ... it suffices

  /** One use per hash, taken from the requests that can be made. */
  ghost function UseOf(asks: iset<Request>, hash: string): (use: Use)
    ensures (exists u :: Request(hash, u) in asks) ==> Request(hash, use) in asks
  {
    if u :| Request(hash, u) in asks then u else AsSD
  }

  ghost function Intended(w: World, asks: iset<Request>): World
  {
    w.(use := (hash: string) => UseOf(asks, hash))
  }

  lemma IntendedConforms(w: World, asks: iset<Request>, req: Request)
    requires FailuresShow(w, asks) && UsesAgree(w, asks) && req in asks
    ensures Intended(w, asks).Conforms(req)
  {
    var use := UseOf(asks, req.hash);
    assert Request(req.hash, req.use) in asks;
    assert Request(req.hash, use) in asks;
    assert w.FailureShows(req);
  }

  /** What a hash is meant for does not influence a run. */
  lemma {:induction false} UseIsNotRead(w: World, w': World, maxSizeInBytes: nat, moves: seq<Move>)
    requires w' == w.(use := w'.use)
    ensures After(w, maxSizeInBytes, moves) == After(w', maxSizeInBytes, moves)
  {
    if moves != [] {
      UseIsNotRead(w, w', maxSizeInBytes, moves[..|moves| - 1]);
      var before := After(w, maxSizeInBytes, moves[..|moves| - 1]);
      if before.Some? {
        StepReadsNoUse(w, w', maxSizeInBytes, before.value, moves[|moves| - 1]);
      }
    }
  }

  lemma StepReadsNoUse(w: World, w': World, maxSizeInBytes: nat, s: State, m: Move)
    requires w' == w.(use := w'.use)
    ensures Enabled(w, maxSizeInBytes, s, m) <==> Enabled(w', maxSizeInBytes, s, m)
    ensures Enabled(w, maxSizeInBytes, s, m) ==> Next(w, maxSizeInBytes, s, m) == Next(w', maxSizeInBytes, s, m)
  {
    assert forall req, data :: ItemOf(w, req, data) == ItemOf(w', req, data);
  }

  lemma RunAgrees(w: World, maxSizeInBytes: nat, asks: iset<Request>, moves: seq<Move>)
    requires FailuresShow(w, asks) && UsesAgree(w, asks)
    requires AsksOnly(moves, asks) && After(w, maxSizeInBytes, moves).Some?
    ensures Agrees(w, After(w, maxSizeInBytes, moves).value)
  {
    var w' := Intended(w, asks);
    UseIsNotRead(w, w', maxSizeInBytes, moves);
    forall i | 0 <= i < |moves|
      ensures Conforming(w', moves[i])
    {
      assert moves[i] in moves;
      if moves[i].Begin? {
        IntendedConforms(w, asks, moves[i].req);
      }
    }
    InvOfRun(w', maxSizeInBytes, moves);
    var s := After(w, maxSizeInBytes, moves).value;
    forall t | t in s.callers
      ensures !s.callers[t].Panicked?
      ensures s.callers[t].Returned? && s.callers[t].outcome.Some? ==> w.Truth(s.callers[t].req) == s.callers[t].outcome
    {
      assert CallerOk(w', s, t, s.callers[t]);
    }
  }

  // ---- ... and it is needed

  lemma OneMove(w: World, maxSizeInBytes: nat, asks: iset<Request>, moves: seq<Move>, s: State, m: Move)
    returns (more: seq<Move>)
    requires After(w, maxSizeInBytes, moves) == Some(s) && Enabled(w, maxSizeInBytes, s, m)
    requires AsksOnly(moves, asks) && (m.Begin? ==> m.req in asks)
    ensures AsksOnly(more, asks) && After(w, maxSizeInBytes, more) == Some(Next(w, maxSizeInBytes, s, m))
  {
    more := moves + [m];
    assert more[..|more| - 1] == moves && more[|more| - 1] == m;
  }

  function HotOf(hash: string, item: Option<Item>): map<string, Item>
  {
    match item case None => map[] case Some(it) => map[hash := it]
  }

  /** A caller makes a request, and misses an empty hot cache with nothing in the air. */
  lemma CallerAsks(w: World, maxSizeInBytes: nat, asks: iset<Request>, moves: seq<Move>, s: State, t: nat, req: Request)
    returns (more: seq<Move>, s': State)
    requires After(w, maxSizeInBytes, moves) == Some(s) && AsksOnly(moves, asks) && req in asks
    requires t !in s.callers && s.hot == map[] && s.inAir == map[]
    ensures After(w, maxSizeInBytes, more) == Some(s') && AsksOnly(more, asks)
    ensures s'.callers == s.callers[t := Leading(req, |s.flights|)] && s'.hot == map[] && s'.disk == s.disk
    ensures s'.inAir == map[req.hash := |s.flights|] && s'.flights == s.flights + [Flight(req.hash, t, None)]
  {
    more := OneMove(w, maxSizeInBytes, asks, moves, s, Begin(t, req));
    var s1 := Next(w, maxSizeInBytes, s, Begin(t, req));
    more := OneMove(w, maxSizeInBytes, asks, more, s1, Lookup(t));
    var s2 := Next(w, maxSizeInBytes, s1, Lookup(t));
    more := OneMove(w, maxSizeInBytes, asks, more, s2, Enter(t));
    s' := Next(w, maxSizeInBytes, s2, Enter(t));
  }

  /** A leader with data stores what it makes of it, lands and returns. */
  lemma LeaderFinishes(w: World, maxSizeInBytes: nat, asks: iset<Request>, moves: seq<Move>, s: State, t: nat,
                       req: Request, f: nat, data: Option<Bytes>) returns (more: seq<Move>, s': State)
    requires 1 <= HotCapacity(maxSizeInBytes) && After(w, maxSizeInBytes, moves) == Some(s) && AsksOnly(moves, asks)
    requires At(s, t) == Fetched(req, f, data) && s.hot == map[]
    requires f < |s.flights| && s.inAir == map[req.hash := f]
    ensures After(w, maxSizeInBytes, more) == Some(s') && AsksOnly(more, asks)
    ensures s'.callers == s.callers[t := Returned(req, ItemOf(w, req, data))]
    ensures s'.hot == HotOf(req.hash, ItemOf(w, req, data)) && s'.disk == s.disk && s'.inAir == map[]
  {
    assert HotWith(s, req, ItemOf(w, req, data), {}) == HotOf(req.hash, ItemOf(w, req, data));
    more := OneMove(w, maxSizeInBytes, asks, moves, s, Store(t, {}));
    var s1 := Next(w, maxSizeInBytes, s, Store(t, {}));
    more := OneMove(w, maxSizeInBytes, asks, more, s1, Land(t));
    s' := Next(w, maxSizeInBytes, s1, Land(t));
  }

  /** What the network gives: the blob, or nothing if the fetch fails or there is none. */
  function Given(w: World, hash: string, up: bool): Option<Bytes>
  {
    if up && hash in w.blobs then Some(w.blobs[hash]) else None
  }

  /** The first request of all, from the start to its return. */
  lemma FirstRequest(w: World, maxSizeInBytes: nat, asks: iset<Request>, req: Request, up: bool)
    returns (moves: seq<Move>, s: State)
    requires 1 <= HotCapacity(maxSizeInBytes) && req in asks && (up || req.hash !in w.reliable)
    ensures After(w, maxSizeInBytes, moves) == Some(s) && AsksOnly(moves, asks)
    ensures var data := w.GetFunc(req.use, Given(w, req.hash, up));
            var item := ItemOf(w, req, data);
            && s.callers == map[0 := Returned(req, item)] && s.hot == HotOf(req.hash, item) && s.inAir == map[]
            && (data.Some? ==> s.disk == map[req.hash := data.value])
  {
    moves, s := CallerAsks(w, maxSizeInBytes, asks, [], START, 0, req);
    moves := OneMove(w, maxSizeInBytes, asks, moves, s, AskDisk(0));
    s := Next(w, maxSizeInBytes, s, AskDisk(0));
    moves := OneMove(w, maxSizeInBytes, asks, moves, s, OriginAnswers(0, up, true));
    s := Next(w, maxSizeInBytes, s, OriginAnswers(0, up, true));
    var data := w.GetFunc(req.use, Given(w, req.hash, up));
    moves, s := LeaderFinishes(w, maxSizeInBytes, asks, moves, s, 0, req, 0, data);
  }

  /** A failed fetch of a chunk is not reported as such: decryption runs on what came back.  If it makes other bytes
      than the right ones of empty data, a request whose fetch can fail gets them. */
  lemma UnreportedFailure(w: World, maxSizeInBytes: nat, asks: iset<Request>, req: Request) returns (moves: seq<Move>)
    requires 1 <= HotCapacity(maxSizeInBytes) && req in asks && !w.FailureShows(req)
    ensures AsksOnly(moves, asks) && After(w, maxSizeInBytes, moves).Some?
    ensures var c := At(After(w, maxSizeInBytes, moves).value, 0);
            && c == Returned(req, Some(SizedSlice(w.decrypt([], req.use.key, req.use.iv).value)))
            && c.outcome != w.Truth(req)
    ensures !Agrees(w, After(w, maxSizeInBytes, moves).value)
  {
    var s;
    moves, s := FirstRequest(w, maxSizeInBytes, asks, req, req.hash in w.reliable);
  }

  /** Entries are keyed by hash alone.  If two requests for a stored hash want different things of it, one of them gets
      what is not its own, or panics on an entry of the wrong kind. */
  lemma MixedUseMisleads(w: World, maxSizeInBytes: nat, asks: iset<Request>, req: Request, other: Request)
    returns (moves: seq<Move>)
    requires 1 <= HotCapacity(maxSizeInBytes) && req in asks && other in asks
    requires req.hash == other.hash && req.hash in w.blobs && !w.Alike(req, other)
    ensures AsksOnly(moves, asks) && After(w, maxSizeInBytes, moves).Some?
    ensures !Agrees(w, After(w, maxSizeInBytes, moves).value)
  {
    if w.Truth(req).Some? {
      moves := SecondIsMisled(w, maxSizeInBytes, asks, req, other);
    } else if w.Truth(other).Some? {
      moves := SecondIsMisled(w, maxSizeInBytes, asks, other, req);
    } else if req.use.AsSD? {
      moves := RawBlobReturned(w, maxSizeInBytes, asks, req, other);
    } else {
      moves := RawBlobReturned(w, maxSizeInBytes, asks, other, req);
    }
  }

  /** The second request reads the first one's entry: it returns the first one's item, or panics if that is of the
      wrong kind. */
  lemma SecondIsMisled(w: World, maxSizeInBytes: nat, asks: iset<Request>, req: Request, other: Request)
    returns (moves: seq<Move>)
    requires 1 <= HotCapacity(maxSizeInBytes) && req in asks && other in asks && req.hash == other.hash
    requires w.Truth(req).Some?
    ensures AsksOnly(moves, asks) && After(w, maxSizeInBytes, moves).Some?
    ensures At(After(w, maxSizeInBytes, moves).value, 1) == Hand(other, w.Truth(req))
    ensures !w.Alike(req, other) ==> !Agrees(w, After(w, maxSizeInBytes, moves).value)
  {
    var s;
    moves, s := FirstRequest(w, maxSizeInBytes, asks, req, true);
    TruthIsFetched(w, req);
    moves := OneMove(w, maxSizeInBytes, asks, moves, s, Begin(1, other));
    s := Next(w, maxSizeInBytes, s, Begin(1, other));
    moves := OneMove(w, maxSizeInBytes, asks, moves, s, Lookup(1));
    s := Next(w, maxSizeInBytes, s, Lookup(1));
    assert s.callers[1] == Hand(other, w.Truth(req));
    TruthHasKind(w, req);
  }

  lemma TruthIsFetched(w: World, req: Request)
    requires req.hash in w.blobs
    ensures ItemOf(w, req, w.GetFunc(req.use, Given(w, req.hash, true))) == w.Truth(req)
  {
  }

  lemma TruthHasKind(w: World, req: Request)
    requires w.Truth(req).Some?
    ensures RightKind(req.use, w.Truth(req).value)
  {
  }

  /** A descriptor that does not parse is on disk all the same, and is handed out undecrypted as a chunk. */
  lemma RawBlobReturned(w: World, maxSizeInBytes: nat, asks: iset<Request>, sd: Request, chunk: Request)
    returns (moves: seq<Move>)
    requires 1 <= HotCapacity(maxSizeInBytes) && sd in asks && chunk in asks
    requires sd.hash == chunk.hash && sd.hash in w.blobs && sd.use.AsSD? && chunk.use.AsChunk?
    requires w.Truth(sd).None? && w.Truth(chunk).None?
    ensures AsksOnly(moves, asks) && After(w, maxSizeInBytes, moves).Some?
    ensures At(After(w, maxSizeInBytes, moves).value, 1) == Returned(chunk, Some(SizedSlice(w.blobs[sd.hash])))
    ensures !Agrees(w, After(w, maxSizeInBytes, moves).value)
  {
    var s;
    moves, s := FirstRequest(w, maxSizeInBytes, asks, sd, true);
    TruthIsFetched(w, sd);
    var f := |s.flights|;
    moves, s := CallerAsks(w, maxSizeInBytes, asks, moves, s, 1, chunk);
    moves := OneMove(w, maxSizeInBytes, asks, moves, s, AskDisk(1));
    s := Next(w, maxSizeInBytes, s, AskDisk(1));
    moves, s := LeaderFinishes(w, maxSizeInBytes, asks, moves, s, 1, chunk, f, Some(w.blobs[sd.hash]));
    assert s.callers[1] == Returned(chunk, Some(SizedSlice(w.blobs[sd.hash])));
  }
}
