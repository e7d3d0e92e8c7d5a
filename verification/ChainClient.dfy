/** Queries and submissions to the chain over a connection that is checked, and if need be made
    anew, at the start of every call. A submission holds the client's lock while it waits for its
    extrinsic to get into a block. The answers of the node are given: one for each broadcast, and
    the events after the one accepted. */
module ChainClient {
  import opened Wrappers

  const MAX_RETRIES: nat := 20
  const WORD := 0x1_0000_0000

  /** What the client hears about an extrinsic that was accepted. */
  datatype Event =
    | NotInBlock
    | InBlock(hash: string, eventsOk: bool) // in a block; its events confirm success
    | SubscriptionError(genuine: bool)      // a value, possibly nil, from the error channel
    | Timeout

  datatype TxResult = TxResult(txhash: string, err: bool)

  const FAILED := TxResult("", true)

  // ----- watching

  /** The watching loop. Wrapping a nil error gives a nil error. If nothing else happens the
      timer fires. */
  method Watch(events: seq<Event>) returns (r: TxResult)
    requires Hashed(events)
    ensures r == Watched(events)
  {
    for i := 0 to |events|
      invariant Watched(events) == Watched(events[i..])
    {
      assert events[i..][1..] == events[i + 1..];
      match events[i] {
        case NotInBlock =>
        case InBlock(hash, ok) => return TxResult(hash, !ok);
        case SubscriptionError(genuine) => return TxResult("", genuine);
        case Timeout => return FAILED;
      }
    }
    return FAILED;
  }

  /** A block's hash is never the empty string. */
  predicate Hashed(events: seq<Event>) {
    forall e :: e in events && e.InBlock? ==> e.hash != ""
  }

  function Watched(events: seq<Event>): TxResult {
    if events == [] then FAILED
    else
      match events[0]
      case NotInBlock => Watched(events[1..])
      case InBlock(hash, ok) => TxResult(hash, !ok)
      case SubscriptionError(genuine) => TxResult("", genuine)
      case Timeout => FAILED
  }

  /** Neither a hash nor an error. */
  predicate Silent(r: TxResult) {
    r.txhash == "" && !r.err
  }

  /** The first thing heard that matters. */
  ghost predicate FirstNews(events: seq<Event>, e: Event) {
    exists i :: 0 <= i < |events| && events[i] == e && e != NotInBlock && Quiet(events, i)
  }

  ghost predicate Quiet(events: seq<Event>, n: nat)
    requires n <= |events|
  {
    forall j :: 0 <= j < n ==> events[j] == NotInBlock
  }

  lemma {:induction false} NewsDecides(events: seq<Event>)
    ensures Watched(events) == FAILED || exists e :: FirstNews(events, e) && Watched(events) == Watched([e])
    ensures forall e :: FirstNews(events, e) ==> Watched(events) == Watched([e])
    decreases |events|
  {
    if events != [] {
      var rest := events[1..];
      NewsDecides(rest);
      if events[0] == NotInBlock {
        forall e ensures FirstNews(events, e) <==> FirstNews(rest, e) {
          NewsOfRest(events, e);
        }
      } else {
        assert FirstNews(events, events[0]);
        assert Watched([events[0]]) == Watched(events);
        forall e | FirstNews(events, e) ensures e == events[0] {
          NewsAtHead(events, e);
        }
      }
    }
  }

  lemma NewsAtHead(events: seq<Event>, e: Event)
    requires events != [] && events[0] != NotInBlock && FirstNews(events, e)
    ensures e == events[0]
  {
    var i :| 0 <= i < |events| && events[i] == e && e != NotInBlock && Quiet(events, i);
  }

  lemma NewsOfRest(events: seq<Event>, e: Event)
    requires events != [] && events[0] == NotInBlock
    ensures FirstNews(events, e) <==> FirstNews(events[1..], e)
  {
    var rest := events[1..];
    if FirstNews(events, e) {
      var i :| 0 <= i < |events| && events[i] == e && e != NotInBlock && Quiet(events, i);
      assert rest[i - 1] == e && Quiet(rest, i - 1);
    }
    if FirstNews(rest, e) {
      var i :| 0 <= i < |rest| && rest[i] == e && e != NotInBlock && Quiet(rest, i);
      assert forall j :: 1 <= j < i + 1 ==> events[j] == rest[j - 1];
      assert events[i + 1] == e && Quiet(events, i + 1);
    }
  }

  /** What each result says: no error means confirmed in a block, or that the subscription ended with a
      nil error; a hash is that of the block the extrinsic is in, confirmed or not. */
  lemma WatchedMeans(events: seq<Event>)
    requires Hashed(events)
    ensures var r := Watched(events);
            && (Silent(r) <==> FirstNews(events, SubscriptionError(false)))
            && (r.txhash != "" <==> exists h, ok :: FirstNews(events, InBlock(h, ok)))
            && (forall h, ok :: FirstNews(events, InBlock(h, ok)) <==> h != "" && r == TxResult(h, !ok))
  {
    NewsDecides(events);
    var r := Watched(events);
    forall h, ok | FirstNews(events, InBlock(h, ok)) ensures h != "" && r == TxResult(h, !ok) {
      assert InBlock(h, ok) in events;
      assert Watched([InBlock(h, ok)]) == TxResult(h, !ok);
    }
    if r.txhash != "" {
      assert FirstNews(events, InBlock(r.txhash, !r.err));
    }
  }

  // ----- the connection

  /** What the health check of one call meets: an answer, and failing that, a new connection. */
  datatype Link = Link(healthy: bool, reconnects: bool)

  predicate Outage(l: Link) {
    !l.healthy && !l.reconnects
  }

  /** Whether there is still a connection after the calls with these checks. */
  function ApiAfter(api: bool, links: seq<Link>): bool {
    if links == [] then api else ApiAfter(api, links[..|links| - 1]) && !Outage(links[|links| - 1])
  }

  /** One outage is enough, and nothing ever brings the connection back. */
  lemma {:induction false} ApiLastsExactly(api: bool, links: seq<Link>)
    ensures ApiAfter(api, links) <==> api && forall i :: 0 <= i < |links| ==> !Outage(links[i])
    decreases |links|
  {
    if links != [] {
      ApiLastsExactly(api, links[..|links| - 1]);
      assert forall i :: 0 <= i < |links| - 1 ==> links[i] == links[..|links| - 1][i];
    }
  }

  // ----- submitting

  datatype Answer = Accepted(events: seq<Event>) | LowPriority | Rejected

  /** Everything outside the client that one submission depends on: the connection, building the
      call, the account's storage and nonce, signing, and the answer to each broadcast. */
  datatype World = World(
    link: Link, built: bool, accountOk: bool, nonce: nat, signs: nat -> bool, answers: nat -> Answer)

  /** A call either returns or panics. */
  datatype Call = Returned(result: TxResult) | CallPanics

  /** From the k-th broadcast on, all of them with the next nonce. */
  function Retried(w: World, k: nat): TxResult
    decreases MAX_RETRIES + 1 - k
  {
    if k > MAX_RETRIES || !w.signs(k) then FAILED
    else if w.answers(k).Accepted? then Watched(w.answers(k).events)
    else Retried(w, k + 1)
  }

  /** The result over a live connection. */
  function Sent(w: World, retry: bool): TxResult {
    if !w.accountOk || !w.signs(0) then FAILED
    else
      match w.answers(0)
      case Accepted(events) => Watched(events)
      case Rejected => FAILED
      case LowPriority => if retry then Retried(w, 1) else FAILED
  }

  /** A missing connection passes the health check, and the first use of it panics. */
  function Submitted(w: World, api: bool, retry: bool): Call {
    if (api && Outage(w.link)) || !w.built then Returned(FAILED)
    else if api then Returned(Sent(w, retry))
    else CallPanics
  }

  ghost predicate AllHashed(w: World) {
    forall k :: w.answers(k).Accepted? ==> Hashed(w.answers(k).events)
  }

  class Client {
    var api: bool        // whether there is a connection
    var locked: bool
    var chainState: bool
    var nonces: seq<nat> // of all extrinsics broadcast, in order

    constructor ()
      ensures api && !locked && chainState && nonces == []
    {
      api, locked, chainState, nonces := true, false, true, [];
    }

    /** Without a connection the check panics, recovers, and returns the zero error. */
    method HealthCheck(l: Link) returns (err: bool)
      ensures err <==> api && !l.healthy
    {
      if !api {
        return false;
      }
      return !l.healthy;
    }

    method IsChainClientOk(l: Link) returns (ok: bool)
      modifies this`api
      ensures ok <==> !(old(api) && Outage(l))
      ensures api <==> old(api) && !Outage(l)
    {
      var err := HealthCheck(l);
      if err {
        api := false;
        if !l.reconnects {
          return false;
        }
        api := true;
        return true;
      }
      return true;
    }

    /** File and filler metadata are broadcast again when the priority is too low, proof results are
        not. The nonce goes up once, whatever the number of retries. The deferred unlock also runs
        on a panic, which happens exactly without a connection. */
    method Submit(w: World, retry: bool) returns (r: Call)
      requires !locked && AllHashed(w) && w.nonce < WORD
      modifies this
      ensures !locked && chainState == !(old(api) && Outage(w.link))
      ensures api <==> ApiAfter(old(api), [w.link])
      ensures r == Submitted(w, old(api), retry)
      ensures r.CallPanics? <==> !old(api) && w.built
      ensures old(nonces) <= nonces && (r.CallPanics? ==> nonces == old(nonces))
      ensures var sent := nonces[|old(nonces)|..];
              && |sent| <= 1 + MAX_RETRIES
              && (sent != [] ==> sent[0] == w.nonce)
              && (forall k :: 1 <= k < |sent| ==> sent[k] == (w.nonce + 1) % WORD)
              && (|sent| > 1 ==> retry && w.answers(0) == LowPriority)
    {
      locked := true;
      assert ApiAfter(api, [w.link]) <==> api && !Outage(w.link) by {
        ApiLastsExactly(api, [w.link]);
      }
      var ok := IsChainClientOk(w.link);
      chainState := ok;
      if !ok || !w.built {
        locked := false;
        return Returned(FAILED);
      }
      if !api {
        locked := false;
        return CallPanics;
      }
      if !w.accountOk || !w.signs(0) {
        locked := false;
        return Returned(FAILED);
      }
      nonces := nonces + [w.nonce];
      var result := FAILED;
      match w.answers(0) {
        case Accepted(events) =>
          result := Watch(events);
        case Rejected =>
        case LowPriority =>
          if retry {
            result := Retry(w);
          }
      }
      locked := false;
      return Returned(result);
    }

    /** Looking up a file: three tries, if the first two find nothing. */
    method GetFileState(qs: nat -> Query) returns (r: Look)
      modifies this`api, this`chainState
      ensures r == Looked(qs, old(api), 0)
      ensures api ==> old(api)
      ensures old(api) && !api ==> exists k: nat :: k < 3 && Outage(qs(k).link)
    {
      var tryCount := 0;
      while tryCount <= 3
        invariant 0 <= tryCount < 3 && Looked(qs, old(api), 0) == Looked(qs, api, tryCount)
        invariant api ==> old(api)
        invariant old(api) && !api ==> exists k: nat :: k < 3 && Outage(qs(k).link)
        decreases 3 - tryCount
      {
        var q := qs(tryCount);
        var ok := IsChainClientOk(q.link);
        chainState := ok;
        if ok && q.built && !api {
          return LookPanics;
        }
        if ok && q.built && q.active.Some? {
          return State(q.active.value);
        }
        tryCount := tryCount + 1;
        if tryCount >= 3 {
          return NoState;
        }
      }
      return NoState;
    }

    method Retry(w: World) returns (r: TxResult)
      requires AllHashed(w)
      modifies this`nonces
      ensures r == Retried(w, 1)
      ensures old(nonces) <= nonces && |nonces| <= |old(nonces)| + MAX_RETRIES
      ensures forall k :: |old(nonces)| <= k < |nonces| ==> nonces[k] == (w.nonce + 1) % WORD
    {
      var tryCount := 0;
      while tryCount < MAX_RETRIES
        invariant 0 <= tryCount <= MAX_RETRIES && |nonces| == |old(nonces)| + tryCount
        invariant Retried(w, 1) == Retried(w, tryCount + 1)
        invariant old(nonces) <= nonces
        invariant forall k :: |old(nonces)| <= k < |nonces| ==> nonces[k] == (w.nonce + 1) % WORD
      {
        if !w.signs(tryCount + 1) {
          return FAILED;
        }
        nonces := nonces + [(w.nonce + 1) % WORD];
        if w.answers(tryCount + 1).Accepted? {
          r := Watch(w.answers(tryCount + 1).events);
          return;
        }
        tryCount := tryCount + 1;
      }
      return FAILED;
    }
  }

  // ----- looking up a file

  /** One query for a file's metadata, and whether it shows the file as active. */
  datatype Query = Query(link: Link, built: bool, active: Option<bool>)

  datatype Look = State(active: bool) | NoState | LookPanics

  function Looked(qs: nat -> Query, api: bool, k: nat): Look
    decreases 3 - k
  {
    if k >= 3 then NoState
    else
      var q := qs(k);
      if (api && Outage(q.link)) || !q.built then Looked(qs, api && !Outage(q.link), k + 1)
      else if !api then LookPanics
      else if q.active.Some? then State(q.active.value)
      else Looked(qs, api, k + 1)
  }

  /** The connection is missing at try k: from the start, or for an outage met before. */
  ghost predicate Missing(qs: nat -> Query, api: bool, k: nat) {
    !api || exists i: nat :: i < k && Outage(qs(i).link)
  }

  /** Looking up a file panics exactly if some try meets a missing connection before one finds it. */
  lemma LookPanicsExactly(qs: nat -> Query, api: bool)
    ensures Looked(qs, api, 0) == LookPanics <==>
              exists k: nat :: PanicsAt(qs, api, k)
  {
    var a1 := api && !Outage(qs(0).link);
    var a2 := a1 && !Outage(qs(1).link);
    assert Missing(qs, api, 0) <==> !api;
    assert Missing(qs, api, 1) <==> !a1;
    assert Missing(qs, api, 2) <==> !a2;
    assert PanicsAt(qs, api, 0) <==> !api && qs(0).built;
    assert PanicsAt(qs, api, 1) <==> !a1 && qs(1).built && !Found(qs, api, 0);
    assert PanicsAt(qs, api, 2) <==> !a2 && qs(2).built && !Found(qs, api, 0) && !Found(qs, api, 1);
    assert forall k: nat :: PanicsAt(qs, api, k) ==> k == 0 || k == 1 || k == 2;
  }

  ghost predicate Found(qs: nat -> Query, api: bool, k: nat) {
    !Missing(qs, api, k) && !Outage(qs(k).link) && qs(k).built && qs(k).active.Some?
  }

  /** Looking up a file tells the state that the first try shows that finds it at all, if no try before
      that panics, and none if no try finds it. */
  lemma LookFindsExactly(qs: nat -> Query, api: bool, active: bool)
    ensures Looked(qs, api, 0) == State(active) <==>
              exists k: nat :: k < 3 && qs(k).active == Some(active) && FoundFirst(qs, api, k)
    ensures Looked(qs, api, 0) == NoState <==>
              forall k: nat :: !PanicsAt(qs, api, k) && !FoundFirst(qs, api, k)
  {
    LookPanicsExactly(qs, api);
    var a1 := api && !Outage(qs(0).link);
    var a2 := a1 && !Outage(qs(1).link);
    assert Missing(qs, api, 0) <==> !api;
    assert Missing(qs, api, 1) <==> !a1;
    assert Missing(qs, api, 2) <==> !a2;
    assert Looked(qs, api, 0) == LookPanics || Looked(qs, api, 0) == NoState ||
           FoundFirst(qs, api, 0) || FoundFirst(qs, api, 1) || FoundFirst(qs, api, 2);
    assert forall k: nat :: FoundFirst(qs, api, k) ==> k == 0 || k == 1 || k == 2;
  }

  ghost predicate FoundFirst(qs: nat -> Query, api: bool, k: nat) {
    k < 3 && Found(qs, api, k) && forall i: nat :: i < k ==> !Found(qs, api, i) && !PanicsAt(qs, api, i)
  }

  ghost predicate PanicsAt(qs: nat -> Query, api: bool, k: nat) {
    k < 3 && qs(k).built && Missing(qs, api, k) && forall i: nat :: i < k ==> !Found(qs, api, i)
  }

  // ----- sequences of submissions

  /** What a caller hears that is alone with the client. */
  function Calls(ws: seq<World>, api: bool, retry: bool): (cs: seq<Call>)
    ensures |cs| == |ws|
  {
    if ws == [] then []
    else [Submitted(ws[0], api, retry)] + Calls(ws[1..], api && !Outage(ws[0].link), retry)
  }

  /** Submission j is made over the connection the earlier ones left. */
  lemma {:induction false} CallsAt(ws: seq<World>, api: bool, retry: bool, j: nat)
    requires j < |ws|
    ensures Calls(ws, api, retry)[j] ==
            Submitted(ws[j], api && forall i :: 0 <= i < j ==> !Outage(ws[i].link), retry)
    decreases |ws|
  {
    if j > 0 {
      CallsAt(ws[1..], api && !Outage(ws[0].link), retry, j - 1);
      assert forall i :: 0 <= i < j - 1 ==> ws[1..][i] == ws[i + 1];
      assert forall i :: 0 < i < j ==> ws[i] == ws[1..][i - 1];
    }
  }

  /** Submission j panics exactly if there was no connection from the start, or an earlier one met an
      outage; unless it fails for other reasons before it uses the connection. */
  lemma {:induction false} CallsPanicExactly(ws: seq<World>, api: bool, retry: bool, j: nat)
    requires j < |ws|
    ensures Calls(ws, api, retry)[j].CallPanics? <==>
              ws[j].built && (!api || exists i :: 0 <= i < j && Outage(ws[i].link))
    decreases |ws|
  {
    if j > 0 {
      CallsPanicExactly(ws[1..], api && !Outage(ws[0].link), retry, j - 1);
      assert forall i :: 0 <= i < j - 1 ==> ws[1..][i] == ws[i + 1];
      if i :| 0 <= i < j && Outage(ws[i].link) && i > 0 {
        assert ws[1..][i - 1] == ws[i];
      }
    }
  }

  // ----- the return contract

  /** The broadcast that was accepted, with the events that followed. */
  ghost predicate AcceptedAs(w: World, api: bool, retry: bool, k: nat) {
    && api && !Outage(w.link) && w.built && w.accountOk && k <= (if retry then MAX_RETRIES else 0)
    && w.answers(k).Accepted?
    && (k > 0 ==> w.answers(0) == LowPriority)
    && forall i :: 0 <= i <= k ==> w.signs(i) && (i < k ==> !w.answers(i).Accepted?)
  }

  lemma {:induction false} RetriedAs(w: World, k: nat)
    requires 1 <= k <= MAX_RETRIES + 1
    ensures Retried(w, k) == FAILED || exists i :: FoundAt(w, k, i)
    ensures forall i :: FoundAt(w, k, i) ==> Retried(w, k) == Watched(w.answers(i).events)
    decreases MAX_RETRIES + 1 - k
  {
    if k <= MAX_RETRIES && w.signs(k) {
      if w.answers(k).Accepted? {
        assert FoundAt(w, k, k);
      } else {
        RetriedAs(w, k + 1);
        var next := k + 1;
        if i: nat :| FoundAt(w, next, i) {
          assert FoundAt(w, k, i);
        }
        assert forall i: nat :: FoundAt(w, k, i) ==> FoundAt(w, k + 1, i);
      }
    }
  }

  /** Broadcast i is the first accepted from k on. */
  ghost predicate FoundAt(w: World, k: nat, i: nat) {
    && k <= i <= MAX_RETRIES && w.answers(i).Accepted?
    && forall j :: k <= j <= i ==> w.signs(j) && (j < i ==> !w.answers(j).Accepted?)
  }

  /** Some broadcast was accepted, and this is the first that was heard of it. */
  ghost predicate Heard(w: World, api: bool, retry: bool, e: Event) {
    exists k :: AcceptedAs(w, api, retry, k) && FirstNews(w.answers(k).events, e)
  }

  /** The return contract of a submission: without an error the extrinsic was accepted, and then
      either confirmed in a block, or the subscription ended with a nil error and there is no hash
      either; a hash is that of the block the extrinsic is in, even if there is an error as well. */
  lemma SubmittedMeans(w: World, api: bool, retry: bool)
    requires AllHashed(w) && Submitted(w, api, retry).Returned?
    ensures var r := Submitted(w, api, retry).result;
            && (Silent(r) <==> Heard(w, api, retry, SubscriptionError(false)))
            && (r.txhash != "" <==> exists h, ok :: Heard(w, api, retry, InBlock(h, ok)))
            && (forall h, ok :: Heard(w, api, retry, InBlock(h, ok)) <==> h != "" && r == TxResult(h, !ok))
  {
    var r := Submitted(w, api, retry).result;
    forall k | AcceptedAs(w, api, retry, k)
      ensures r == Watched(w.answers(k).events)
      ensures Silent(r) <==> FirstNews(w.answers(k).events, SubscriptionError(false))
      ensures forall h, ok :: FirstNews(w.answers(k).events, InBlock(h, ok)) <==> h != "" && r == TxResult(h, !ok)
    {
      AcceptedDecides(w, api, retry, k);
      WatchedMeans(w.answers(k).events);
    }
    if r != FAILED {
      var k := AcceptedOne(w, api, retry);
      if r.txhash != "" {
        assert FirstNews(w.answers(k).events, InBlock(r.txhash, !r.err));
        assert Heard(w, api, retry, InBlock(r.txhash, !r.err));
      }
    }
  }

  lemma AcceptedDecides(w: World, api: bool, retry: bool, k: nat)
    requires AcceptedAs(w, api, retry, k)
    ensures Submitted(w, api, retry) == Returned(Watched(w.answers(k).events))
  {
    RetriedAs(w, 1);
    if k > 0 {
      assert FoundAt(w, 1, k);
    }
    assert w.signs(0);
  }

  lemma AcceptedOne(w: World, api: bool, retry: bool) returns (k: nat)
    requires Submitted(w, api, retry).Returned? && Submitted(w, api, retry).result != FAILED
    ensures AcceptedAs(w, api, retry, k)
  {
    k := 0;
    if w.answers(0) == LowPriority {
      RetriedAs(w, 1);
      k :| FoundAt(w, 1, k);
    }
  }
}
