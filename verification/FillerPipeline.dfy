/** The filler pipeline: one task makes fillers and queues them, one task takes them from the queue
    and offers each to miner after miner until the chain returns a transaction hash for it. A filler
    is known by the hash that names its file. */
module FillerPipeline {
  import opened Wrappers
  import C = ChainClient

  const RESERVED: nat := 5  // capacity of the queue

  type Filler = nat
  type Miner = nat

  datatype Maker = Resting | Made(f: Filler) | Tagged(f: Filler)

  /** `Removing`: the hash has come back and the local files are about to go. `Wedged`: the goroutine that
      talks to the miner has panicked, or its SendFile hangs, and the space task waits for its answer in
      vain. */
  datatype Taker = Free | Holding | Sending(m: Miner) | Submitting(m: Miner) | Removing(f: Filler) | Wedged

  datatype Fate = Submitted(f: Filler, m: Miner) | Lost(f: Filler)

  datatype Attempt = Attempt(f: Filler, m: Miner, ok: bool)

  datatype State = State(
    maker: Maker, queue: seq<Filler>, hand: Option<Filler>, taker: Taker, disk: set<Filler>,
    names: set<Filler>,       // every file name used so far
    produced: seq<Filler>,    // fillers whose tag was saved, in order
    settled: seq<Fate>,       // what became of those that left the hand, in order
    attempts: seq<Attempt>)   // every submission, in order

  function Init(): State {
    State(Resting, [], None, Free, {}, {}, [], [], [])
  }

  datatype Step =
    | Generate(f: Filler) | TagFails | TagPanics | TagSaved | Enqueue
    | Dequeue | Offer(m: Miner) | OfferFails | Sent | Submit(ok: bool) | Remove
    | OfferPanics | OfferHangs | TakerDies

  predicate Enabled(s: State, a: Step) {
    match a
    case Generate(f) => s.maker == Resting && |s.queue| < RESERVED && f !in s.names
    case TagFails => s.maker.Made?
    case TagPanics => s.maker.Made?
    case TagSaved => s.maker.Made?
    case Enqueue => s.maker.Tagged? && |s.queue| < RESERVED
    case Dequeue => s.taker == Free && s.queue != []
    case Offer(_) => s.taker == Holding
    case OfferFails => s.taker.Sending?
    case Sent => s.taker.Sending?
    case Submit(_) => s.taker.Submitting? && s.hand.Some?
    case Remove => s.taker.Removing?
    case OfferHangs => s.taker.Sending?
    case OfferPanics => s.taker.Sending? || s.taker.Submitting? || s.taker.Removing?
    case TakerDies => s.taker == Free || (s.taker == Holding && s.hand.Some?)
  }

  function Apply(s: State, a: Step): State
    requires Enabled(s, a)
  {
    match a
    case Generate(f) => s.(maker := Made(f), disk := s.disk + {f}, names := s.names + {f})
    case TagFails => s.(maker := Resting, disk := s.disk - {s.maker.f})
    case TagPanics => s.(maker := Resting)
    case TagSaved => s.(maker := Tagged(s.maker.f), produced := s.produced + [s.maker.f])
    case Enqueue => s.(maker := Resting, queue := s.queue + [s.maker.f])
    case Dequeue => s.(queue := s.queue[1..], hand := Some(s.queue[0]), taker := Holding)
    case Offer(m) => s.(taker := Sending(m))
    case OfferFails => s.(taker := Holding)
    case Sent => s.(taker := Submitting(s.taker.m))
    case Submit(ok) =>
      var f, m := s.hand.value, s.taker.m;
      var tried := s.(attempts := s.attempts + [Attempt(f, m, ok)]);
      if ok then tried.(hand := None, taker := Removing(f), settled := s.settled + [Submitted(f, m)]) else tried
    case Remove => s.(taker := Free, disk := s.disk - {s.taker.f})
    case OfferPanics => s.(taker := Wedged)
    case OfferHangs => s.(taker := Wedged)
    case TakerDies =>
      if s.hand == None then s.(taker := Free)
      else s.(taker := Free, hand := None, settled := s.settled + [Lost(s.hand.value)])
  }

  function Exec(steps: seq<Step>): Option<State> {
    if steps == [] then Some(Init())
    else
      var before := Exec(steps[..|steps| - 1]);
      var a := steps[|steps| - 1];
      if before.Some? && Enabled(before.value, a) then Some(Apply(before.value, a)) else None
  }

  // ----- conservation

  function Names(fates: seq<Fate>): (fs: seq<Filler>)
    ensures |fs| == |fates| && forall k :: 0 <= k < |fates| ==> fs[k] == fates[k].f
  {
    seq(|fates|, k requires 0 <= k < |fates| => fates[k].f)
  }

  function InHand(s: State): seq<Filler> {
    if s.hand.Some? then [s.hand.value] else []
  }

  function AtMaker(s: State): seq<Filler> {
    if s.maker.Tagged? then [s.maker.f] else []
  }

  function Gone(s: State): seq<Filler> {
    Names(s.settled) + InHand(s)
  }

  /** Everything produced, oldest first, by the place where it is now. */
  function Places(s: State): seq<Filler> {
    Gone(s) + (s.queue + AtMaker(s))
  }

  ghost predicate Distinct(fs: seq<Filler>) {
    forall i, j :: 0 <= i < j < |fs| ==> fs[i] != fs[j]
  }

  ghost predicate Conserved(s: State) {
    && Places(s) == s.produced && Distinct(s.produced)
    && (forall f :: f in s.produced ==> f in s.names)
    && (s.maker.Made? ==> s.maker.f in s.names && s.maker.f !in s.produced)
    && |s.queue| <= RESERVED
    && (s.maker != Resting ==> |s.queue| < RESERVED)
    && (s.taker != Wedged ==> (s.hand.Some? <==> s.taker.Holding? || s.taker.Sending? || s.taker.Submitting?))
  }

  lemma PlacesStep(s: State, a: Step)
    requires Enabled(s, a) && (s.taker == Free ==> s.hand == None)
    ensures Places(Apply(s, a)) == Places(s) + if a == TagSaved then [s.maker.f] else []
  {
    var t := Apply(s, a);
    match a
    case TagSaved =>
      assert Gone(t) == Gone(s);
      Regroup(Gone(s), s.queue, [s.maker.f]);
      assert s.queue + [] == s.queue;
    case Enqueue =>
      assert Gone(t) == Gone(s);
      assert t.queue + [] == t.queue;
    case Dequeue =>
      assert Gone(t) == Gone(s) + [s.queue[0]];
      Regroup(Gone(s), [s.queue[0]], s.queue[1..] + AtMaker(s));
      assert s.queue + AtMaker(s) == [s.queue[0]] + (s.queue[1..] + AtMaker(s));
    case Submit(ok) =>
      assert Names(t.settled) == Names(s.settled) + if ok then [s.hand.value] else [];
      assert Gone(t) == Gone(s);
    case TakerDies =>
      assert Names(t.settled) == Names(s.settled) + InHand(s);
      assert Gone(t) == Gone(s);
    case _ =>
      assert Gone(t) == Gone(s) && t.queue + AtMaker(t) == s.queue + AtMaker(s);
  }

  lemma Regroup(a: seq<Filler>, b: seq<Filler>, c: seq<Filler>)
    ensures (a + b) + c == a + (b + c)
  {
  }

  lemma ConservedStep(s: State, a: Step)
    requires Conserved(s) && Enabled(s, a)
    ensures Conserved(Apply(s, a))
  {
    PlacesStep(s, a);
    assert a == TagSaved || Apply(s, a).produced == s.produced;
  }

  // ----- submission

  /** A filler goes to one miner, and its last submission is the first that succeeds. */
  ghost predicate OneMiner(attempts: seq<Attempt>) {
    forall i, j :: 0 <= i < j < |attempts| && attempts[i].f == attempts[j].f ==>
      attempts[i].m == attempts[j].m && !attempts[i].ok
  }

  /** Submissions are only made for fillers in the hand or settled; those of the filler in the hand
      failed and went to the miner being dealt with. */
  ghost predicate Accounted(s: State) {
    forall a :: a in s.attempts ==>
      a.f in Names(s.settled) || (s.hand == Some(a.f) && !a.ok && (s.taker == Submitting(a.m) || s.taker == Wedged))
  }

  ghost predicate Recorded(s: State) {
    forall f, m :: Submitted(f, m) in s.settled <==> Attempt(f, m, true) in s.attempts
  }

  lemma HandIsNew(s: State, f: Filler)
    requires Conserved(s) && s.hand == Some(f)
    ensures f !in Names(s.settled) && f !in s.queue
    ensures f in s.produced
  {
    var k := |s.settled|;
    assert s.produced[k] == f;
    assert forall i :: 0 <= i < k ==> s.produced[i] == Names(s.settled)[i];
    assert forall i :: 0 <= i < |s.queue| ==> s.produced[k + 1 + i] == s.queue[i];
  }

  lemma SubmissionStep(s: State, a: Step)
    requires Conserved(s) && OneMiner(s.attempts) && Accounted(s) && Recorded(s) && Enabled(s, a)
    ensures OneMiner(Apply(s, a).attempts) && Accounted(Apply(s, a)) && Recorded(Apply(s, a))
  {
    var t := Apply(s, a);
    if s.hand.Some? {
      HandIsNew(s, s.hand.value);
    }
    match a
    case Submit(ok) =>
      var f := s.hand.value;
      assert Names(t.settled) == Names(s.settled) + if ok then [f] else [];
      assert forall b :: b in t.attempts <==> b in s.attempts || b == Attempt(f, s.taker.m, ok);
    case TakerDies =>
      assert Names(t.settled) == Names(s.settled) + InHand(s);
    case Dequeue =>
      assert Names(t.settled) == Names(s.settled);
    case _ =>
      assert t.settled == s.settled;
  }

  // ----- files

  /** The files of a filler are there unless its transaction hash came back, and then they go. */
  ghost predicate Kept(s: State) {
    && (s.maker.Made? ==> s.maker.f in s.disk)
    && (forall f :: f in s.produced && f !in s.disk ==> exists m :: Submitted(f, m) in s.settled)
    && (forall k :: 0 <= k < |s.settled| && s.settled[k].Submitted? && s.settled[k].f in s.disk ==>
          k == |s.settled| - 1 && (s.taker == Removing(s.settled[k].f) || s.taker == Wedged))
    && (s.taker.Removing? ==> s.settled != [] && s.settled[|s.settled| - 1].Submitted? &&
                              s.settled[|s.settled| - 1].f == s.taker.f)
  }

  lemma KeptBySubmit(s: State, ok: bool)
    requires Conserved(s) && Kept(s) && Enabled(s, Submit(ok))
    ensures Kept(Apply(s, Submit(ok)))
  {
    var t := Apply(s, Submit(ok));
    HandIsNew(s, s.hand.value);
    assert forall x :: x in s.settled ==> x in t.settled;
    if ok {
      assert forall k :: 0 <= k < |s.settled| ==> t.settled[k] == s.settled[k];
    }
  }

  lemma KeptByRemove(s: State)
    requires Conserved(s) && Kept(s) && Enabled(s, Remove)
    ensures Kept(Apply(s, Remove))
  {
    var last := s.settled[|s.settled| - 1];
    assert last in s.settled && last == Submitted(s.taker.f, last.m);
    MadeIsNew(s);
  }

  lemma MadeIsNew(s: State)
    requires Conserved(s)
    ensures forall k :: 0 <= k < |s.settled| ==> s.produced[k] == s.settled[k].f && s.settled[k].f in s.names
    ensures forall k :: 0 <= k < |s.settled| && s.maker.Made? ==> s.settled[k].f != s.maker.f
  {
    assert forall k :: 0 <= k < |s.settled| ==> s.produced[k] == Names(s.settled)[k];
  }

  lemma KeptByMaker(s: State, a: Step)
    requires Conserved(s) && Kept(s) && Enabled(s, a) && (a.Generate? || a == TagFails || a == TagSaved)
    ensures Kept(Apply(s, a))
  {
    MadeIsNew(s);
  }

  lemma KeptByDeath(s: State)
    requires Conserved(s) && Kept(s) && Enabled(s, TakerDies)
    ensures Kept(Apply(s, TakerDies))
  {
    var t := Apply(s, TakerDies);
    assert forall x :: x in s.settled ==> x in t.settled;
    assert forall k :: 0 <= k < |s.settled| ==> t.settled[k] == s.settled[k];
  }

  lemma KeptStep(s: State, a: Step)
    requires Conserved(s) && Kept(s) && Enabled(s, a)
    ensures Kept(Apply(s, a))
  {
    match a
    case Generate(_) => KeptByMaker(s, a);
    case TagFails => KeptByMaker(s, a);
    case TagSaved => KeptByMaker(s, a);
    case Submit(ok) => KeptBySubmit(s, ok);
    case Remove => KeptByRemove(s);
    case TakerDies => KeptByDeath(s);
    case _ =>
      var t := Apply(s, a);
      assert t.settled == s.settled && t.disk == s.disk && t.produced == s.produced;
  }

  // ----- every run

  /** At every moment of every run, each filler produced is in exactly one place, in the order of
      production: settled, in the space task's hand, queued, or about to be queued. Each was
      submitted to one miner only, and with success at most once, as its last submission. Files are
      removed only after that. */
  lemma {:induction false} Conservation(steps: seq<Step>, s: State)
    requires Exec(steps) == Some(s)
    ensures Conserved(s) && OneMiner(s.attempts) && Accounted(s) && Recorded(s) && Kept(s)
  {
    if steps != [] {
      var k := |steps| - 1;
      var before := Exec(steps[..k]).value;
      Conservation(steps[..k], before);
      ConservedStep(before, steps[k]);
      SubmissionStep(before, steps[k]);
      KeptStep(before, steps[k]);
    }
  }

  /** A filler that left the hand was submitted with success, unless the space task died with it. */
  lemma {:induction false} LostExactly(steps: seq<Step>, s: State)
    requires Exec(steps) == Some(s)
    ensures Losses(s.settled) == Deaths(steps)
  {
    if steps != [] {
      var k := |steps| - 1;
      var before := Exec(steps[..k]).value;
      LostExactly(steps[..k], before);
      LossesStep(before, steps[k]);
    }
  }

  lemma LossesStep(s: State, a: Step)
    requires Enabled(s, a)
    ensures Losses(Apply(s, a).settled) == Losses(s.settled) + if a == TakerDies && s.hand.Some? then 1 else 0
  {
    var t := Apply(s, a);
    if t.settled != s.settled {
      assert t.settled[..|t.settled| - 1] == s.settled;
    }
  }

  function Losses(fates: seq<Fate>): nat {
    if fates == [] then 0
    else Losses(fates[..|fates| - 1]) + if fates[|fates| - 1].Lost? then 1 else 0
  }

  /** How often the space task died with a filler in its hand. */
  function Deaths(steps: seq<Step>): nat {
    if steps == [] then 0
    else
      var k := |steps| - 1;
      var before := Exec(steps[..k]);
      Deaths(steps[..k]) + if steps[k] == TakerDies && before.Some? && before.value.hand.Some? then 1 else 0
  }

  /** The fillers on whose tag request the maker panicked. */
  function Abandoned(steps: seq<Step>): set<Filler> {
    if steps == [] then {}
    else
      var k := |steps| - 1;
      var before := Exec(steps[..k]);
      Abandoned(steps[..k]) +
      if steps[k] == TagPanics && before.Some? && before.value.maker.Made? then {before.value.maker.f} else {}
  }

  ghost predicate Placed(s: State, abandoned: set<Filler>) {
    forall f :: f in s.disk ==> f in s.produced || s.maker == Made(f) || f in abandoned
  }

  lemma PlacedStep(s: State, a: Step, abandoned: set<Filler>)
    requires Placed(s, abandoned) && Enabled(s, a)
    ensures Placed(Apply(s, a), abandoned + if a == TagPanics then {s.maker.f} else {})
  {
    var t := Apply(s, a);
    assert t.produced == s.produced || (a == TagSaved && t.produced == s.produced + [s.maker.f]);
    assert forall f :: f in s.produced ==> f in t.produced;
    assert a == TagSaved ==> s.maker.f in t.produced;
  }

  /** An abandoned filler's file is there, and the filler is not made again nor produced. */
  ghost predicate Shelved(s: State, f: Filler) {
    f in s.names && f in s.disk && f !in s.produced && s.maker != Made(f) && s.maker != Tagged(f)
  }

  lemma ShelvedStep(s: State, a: Step, f: Filler)
    requires Conserved(s) && Kept(s) && Enabled(s, a)
    requires Shelved(s, f) || (a == TagPanics && s.maker == Made(f))
    ensures Shelved(Apply(s, a), f)
  {
    if a == Remove {
      MadeIsNew(s);
      assert s.produced[|s.settled| - 1] == s.taker.f;
    }
  }

  /** No file is left over: one on disk is of a filler being made, or produced, or abandoned by a panic,
      and those stay. One whose tag request failed is gone. */
  lemma {:induction false} NoLeftovers(steps: seq<Step>, s: State)
    requires Exec(steps) == Some(s)
    ensures Placed(s, Abandoned(steps)) && forall f :: f in Abandoned(steps) ==> Shelved(s, f)
    decreases |steps|
  {
    if steps != [] {
      var k := |steps| - 1;
      var before := Exec(steps[..k]).value;
      NoLeftovers(steps[..k], before);
      PlacedStep(before, steps[k], Abandoned(steps[..k]));
      Conservation(steps[..k], before);
      forall f | f in Abandoned(steps) ensures Shelved(s, f) {
        ShelvedStep(before, steps[k], f);
      }
    }
  }

  /** The maker's send finds room whenever it comes to it, and one of the tasks can always go on. */
  lemma NeverBlocked(steps: seq<Step>, s: State)
    requires Exec(steps) == Some(s)
    ensures s.maker.Tagged? ==> Enabled(s, Enqueue)
    ensures s.maker == Resting && |s.queue| < RESERVED ==> forall f :: f !in s.names ==> Enabled(s, Generate(f))
    ensures |s.queue| == RESERVED && s.taker == Free ==> Enabled(s, Dequeue)
    ensures s.taker.Submitting? ==> Enabled(s, Submit(true))
  {
    Conservation(steps, s);
  }

  /** After the goroutine that offers a filler has panicked, or hung, nothing is ever submitted again,
      and production stops for good after at most five more. */
  lemma {:induction false} WedgedForEver(steps: seq<Step>, more: seq<Step>, s: State, t: State)
    requires Exec(steps) == Some(s) && s.taker == Wedged && Exec(steps + more) == Some(t)
    ensures t.taker == Wedged && t.settled == s.settled && t.attempts == s.attempts && t.hand == s.hand
    ensures |t.produced| <= |s.settled| + |InHand(s)| + RESERVED
    decreases |more|
  {
    Conservation(steps + more, t);
    if more == [] {
      assert steps + more == steps;
    } else {
      var k := |more| - 1;
      assert (steps + more)[..|steps| + k] == steps + more[..k];
      var before := Exec(steps + more[..k]).value;
      WedgedForEver(steps, more[..k], s, before);
    }
  }

  // ----- the space task's own code

  /** How far an offer gets before anything is submitted. */
  datatype Contact = Refuses | Panics | Hangs | Accepts

  /** The number of replies without a hash before the first that decides: a hash, or a panic. */
  function Empties(replies: seq<C.Call>): (k: nat)
    ensures k <= |replies| && (forall i :: 0 <= i < k ==> replies[i].Returned? && replies[i].result.txhash == "")
    ensures k < |replies| ==> replies[k].CallPanics? || replies[k].result.txhash != ""
  {
    if replies == [] || replies[0].CallPanics? || replies[0].result.txhash != "" then 0 else 1 + Empties(replies[1..])
  }

  /** Submitting ends with a hash, or with a panic, or goes on when the replies run out. */
  datatype SubmitEnd = HashCame | SubmitPanicked | Trying

  function Decided(replies: seq<C.Call>): SubmitEnd {
    var k := Empties(replies);
    if k == |replies| then Trying else if replies[k].CallPanics? then SubmitPanicked else HashCame
  }

  function Failures(f: Filler, m: Miner, k: nat): seq<Attempt> {
    seq(k, _ => Attempt(f, m, false))
  }

  /** The state once filler f has gone to miner m at the submission after k failed ones. */
  function Delivered(s: State, f: Filler, m: Miner, k: nat): State {
    s.(hand := None, taker := Free, disk := s.disk - {f}, settled := s.settled + [Submitted(f, m)],
       attempts := s.attempts + Failures(f, m, k) + [Attempt(f, m, true)])
  }

  datatype RoundEnd = Served | NoFiller | Waiting

  /** The pipeline while the space task has the floor; `run` is how it got where it is. */
  class Pipeline {
    var state: State
    ghost var run: seq<Step>

    constructor ()
      ensures Valid() && run == []
    {
      state, run := Init(), [];
    }

    ghost predicate Valid()
      reads this
    {
      Exec(run) == Some(state)
    }

    method Do(a: Step)
      requires Valid() && Enabled(state, a)
      modifies this
      ensures Valid() && state == Apply(old(state), a) && run == old(run) + [a]
    {
      assert (run + [a])[..|run|] == run;
      state, run := Apply(state, a), run + [a];
    }

    /** Submits the filler again and again until a transaction hash comes back. */
    method SubmitUntilHash(m: Miner, f: Filler, replies: seq<C.Call>) returns (end: SubmitEnd)
      requires Valid() && state.taker == Submitting(m) && state.hand == Some(f)
      modifies this
      ensures Valid() && end == Decided(replies)
      ensures end == HashCame ==> state == Delivered(old(state), f, m, Empties(replies))
      ensures end != HashCame ==>
                state == old(state).(taker := if end == Trying then Submitting(m) else Wedged,
                                     attempts := old(state.attempts) + Failures(f, m, Empties(replies)))
    {
      for i := 0 to |replies|
        invariant Valid() && i <= Empties(replies)
        invariant state == old(state).(attempts := old(state.attempts) + Failures(f, m, i))
      {
        if replies[i].CallPanics? {
          Do(OfferPanics);
          return SubmitPanicked;
        }
        if replies[i].result.txhash == "" {
          Do(Submit(false));
          assert Failures(f, m, i + 1) == Failures(f, m, i) + [Attempt(f, m, false)];
          continue;
        }
        Do(Submit(true));
        Do(Remove);
        return HashCame;
      }
      return Trying;
    }

    /** Offers the filler in the hand to a miner. The answer never comes if the goroutine panics, before
        or while it submits, or hangs, and it is still to come when the replies run out. */
    method StorageFiller(m: Miner, f: Filler, contact: Contact, replies: seq<C.Call>) returns (answer: Option<bool>)
      requires Valid() && state.taker == Holding && state.hand == Some(f)
      modifies this
      ensures Valid()
      ensures answer == Some(false) <==> contact == Refuses
      ensures answer == Some(true) <==> contact == Accepts && Decided(replies) == HashCame
      ensures state.taker == Wedged <==>
                contact == Panics || contact == Hangs || (contact == Accepts && Decided(replies) == SubmitPanicked)
      ensures answer == Some(false) ==> state == old(state)
      ensures answer == Some(true) ==> state == Delivered(old(state), f, m, Empties(replies))
      ensures answer == None ==>
                && (state.taker == Wedged || state.taker == Submitting(m))
                && state == old(state).(taker := state.taker, attempts := state.attempts)
                && state.attempts ==
                   old(state.attempts) + if contact == Accepts then Failures(f, m, Empties(replies)) else []
    {
      Do(Offer(m));
      if contact == Refuses {
        Do(OfferFails);
        return Some(false);
      }
      if contact == Panics {
        Do(OfferPanics);
        return None;
      }
      if contact == Hangs {
        Do(OfferHangs);
        return None;
      }
      Do(Sent);
      var end := SubmitUntilHash(m, f, replies);
      return if end == HashCame then Some(true) else None;
    }

    /** One round over the miners. Nothing the space task took is lost or passed to two miners. */
    method ServeMiners(miners: seq<Miner>, contacts: seq<Contact>, replies: seq<seq<C.Call>>) returns (end: RoundEnd)
      requires Valid() && (state.taker == Free || state.taker == Holding)
      requires |contacts| == |replies| == |miners|
      modifies this
      ensures Valid() && Passed(old(state), state, miners)
      ensures end == Served ==> state.taker == Free || state.taker == Holding
      ensures end == NoFiller ==> state.queue == [] && state.hand == None
      ensures end == Waiting ==> state.taker == Wedged || state.taker.Submitting?
    {
      ghost var start := state;
      for i := 0 to |miners|
        invariant Valid() && Passed(start, state, miners)
        invariant state.taker == Free || state.taker == Holding
      {
        HandFollowsTask(run, state);
        if state.hand == None {
          if state.queue == [] {
            return NoFiller;
          }
          PassedByDequeue(start, state, miners);
          Do(Dequeue);
        }
        ghost var before := state;
        var answer := StorageFiller(miners[i], state.hand.value, contacts[i], replies[i]);
        if answer.None? {
          PassedByWaiting(start, before, miners, state.taker, state.attempts);
          return Waiting;
        }
        if answer.value {
          PassedByDelivery(start, before, miners, before.hand.value, miners[i], Empties(replies[i]));
          assert Passed(start, state, miners);
        }
      }
      return Served;
    }
  }

  /** Between two moments of a round, fillers only moved forward, each to one of the miners. */
  ghost predicate Passed(s: State, t: State, miners: seq<Miner>) {
    && t.maker == s.maker && t.produced == s.produced
    && Gone(t) + t.queue == Gone(s) + s.queue
    && s.settled <= t.settled
    && forall k :: |s.settled| <= k < |t.settled| ==> t.settled[k].Submitted? && t.settled[k].m in miners
  }

  lemma HandFollowsTask(steps: seq<Step>, s: State)
    requires Exec(steps) == Some(s)
    ensures s.taker == Free ==> s.hand == None
    ensures s.taker == Holding ==> s.hand.Some?
  {
    Conservation(steps, s);
  }

  lemma PassedByDequeue(s: State, t: State, miners: seq<Miner>)
    requires Passed(s, t, miners) && Enabled(t, Dequeue) && t.hand == None
    ensures Passed(s, Apply(t, Dequeue), miners)
  {
    assert Gone(Apply(t, Dequeue)) == Gone(t) + [t.queue[0]];
    Regroup(Gone(t), [t.queue[0]], t.queue[1..]);
  }

  lemma PassedByWaiting(s: State, t: State, miners: seq<Miner>, taker: Taker, attempts: seq<Attempt>)
    requires Passed(s, t, miners)
    ensures Passed(s, t.(taker := taker, attempts := attempts), miners)
  {
  }

  lemma PassedByDelivery(s: State, t: State, miners: seq<Miner>, f: Filler, m: Miner, k: nat)
    requires Passed(s, t, miners) && t.hand == Some(f) && m in miners
    ensures Passed(s, Delivered(t, f, m, k), miners)
  {
    var u := Delivered(t, f, m, k);
    assert Names(u.settled) == Names(t.settled) + [f];
    assert Gone(u) == Gone(t);
  }

  // ----- what the hash and the panic mean

  /** The reply that makes the files go says that the extrinsic is in a block, and it carries an error
      exactly if the extrinsic failed there. */
  lemma HashMeans(replies: seq<C.Call>, w: C.World, api: bool)
    requires C.AllHashed(w) && Decided(replies) == HashCame && replies[Empties(replies)] == C.Submitted(w, api, true)
    ensures var r := replies[Empties(replies)].result;
            && (r.err <==> exists h :: C.Heard(w, api, true, C.InBlock(h, false)))
            && (!r.err <==> exists h :: C.Heard(w, api, true, C.InBlock(h, true)))
  {
    C.SubmittedMeans(w, api, true);
  }

  /** A filler whose extrinsic failed in a block counts as delivered, and its files go. */
  lemma RemovedDespiteFailure(s: State, f: Filler, m: Miner, w: C.World, h: string)
    requires C.AllHashed(w) && C.Heard(w, true, true, C.InBlock(h, false))
    ensures var replies := [C.Submitted(w, true, true)];
            && replies[0].Returned? && replies[0].result.err && Decided(replies) == HashCame
            && f !in Delivered(s, f, m, Empties(replies)).disk
  {
    var k :| C.AcceptedAs(w, true, true, k) && C.FirstNews(w.answers(k).events, C.InBlock(h, false));
    C.AcceptedDecides(w, true, true, k);
    C.SubmittedMeans(w, true, true);
  }

  /** One outage under a filler's submission, and the next submission panics. */
  lemma OutageWedges(w: C.World, next: C.World)
    requires C.Outage(w.link) && next.built
    ensures Decided(C.Calls([w, next], true, true)) == SubmitPanicked
  {
    var replies, rest := C.Calls([w, next], true, true), C.Calls([next], false, true);
    assert [w, next][1..] == [next];
    assert replies[0] == C.Returned(C.FAILED) && replies[1..] == rest && rest[0] == C.CallPanics;
    assert Empties(rest) == 0 && Empties(replies) == 1 && replies[1] == C.CallPanics;
  }
}
