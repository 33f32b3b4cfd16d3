/**
 The HTTP client's pool of curl handles (src/http.c:26-38, 108-131, 585-616), under any
 interleaving of concurrent requests. The mutex makes each critical section one step; what a
 request does outside it is a step of its own.
 */
module HandlePool {
  import opened Basics

  const IDLE_HANDLES: nat := 8

  type Handle = nat
  type Request = nat

  /** Where a request is between its critical sections. */
  datatype Phase =
    | Missed               // found the pool empty, about to create a handle
    | Popped(h: Handle)    // took an idle handle, about to reset it
    | Using(h: Handle)
    | Surplus(h: Handle)   // found the pool full, about to close its handle

  /** closed is the log of curl_easy_cleanup calls. */
  datatype State = State(idle: seq<Handle>, requests: map<Request, Phase>, created: set<Handle>, closed: seq<Handle>,
                         freed: bool)

  const INITIAL := State([], map[], {}, [], false)

  datatype Step =
    | AcquirePop(r: Request)
    | AcquireMiss(r: Request)
    | Reset(r: Request)
    | Create(r: Request, made: Handle)
    | CreateFails(r: Request)
    | ReleaseKeep(r: Request)
    | ReleaseFull(r: Request)
    | Close(r: Request)
    | Free

  predicate In(s: State, r: Request, using: bool) {
    r in s.requests && if using then s.requests[r].Using? else s.requests[r].Surplus?
  }

  predicate Enabled(s: State, step: Step) {
    !s.freed &&
    match step
    case AcquirePop(r) => r !in s.requests && s.idle != []
    case AcquireMiss(r) => r !in s.requests && s.idle == []
    case Reset(r) => r in s.requests && s.requests[r].Popped?
    case Create(r, made) => r in s.requests && s.requests[r].Missed? && made !in s.created
    case CreateFails(r) => r in s.requests && s.requests[r].Missed?
    case ReleaseKeep(r) => In(s, r, true) && |s.idle| < IDLE_HANDLES
    case ReleaseFull(r) => In(s, r, true) && |s.idle| >= IDLE_HANDLES
    case Close(r) => In(s, r, false)
    case Free => s.requests == map[]
  }

  function Next(s: State, step: Step): State
    requires Enabled(s, step)
  {
    match step
    case AcquirePop(r) =>
      var last := |s.idle| - 1;
      s.(idle := s.idle[..last], requests := s.requests[r := Popped(s.idle[last])])
    case AcquireMiss(r) => s.(requests := s.requests[r := Missed])
    case Reset(r) => s.(requests := s.requests[r := Using(s.requests[r].h)])
    case Create(r, made) => s.(requests := s.requests[r := Using(made)], created := s.created + {made})
    case CreateFails(r) => s.(requests := s.requests - {r})
    case ReleaseKeep(r) => s.(idle := s.idle + [s.requests[r].h], requests := s.requests - {r})
    case ReleaseFull(r) => s.(requests := s.requests[r := Surplus(s.requests[r].h)])
    case Close(r) => s.(closed := s.closed + [s.requests[r].h], requests := s.requests - {r})
    case Free => s.(idle := [], closed := s.closed + s.idle, freed := true)
  }

  predicate Holds(s: State, r: Request, h: Handle) {
    r in s.requests && !s.requests[r].Missed? && s.requests[r].h == h
  }

  ghost predicate Held(s: State, h: Handle) {
    exists r :: Holds(s, r, h)
  }

  predicate NoRepeats(hs: seq<Handle>) {
    forall i, j :: 0 <= i < j < |hs| ==> hs[i] != hs[j]
  }

  /** Every handle ever created is idle, held by one request, or closed: in exactly one place, once. */
  ghost predicate Safe(s: State) {
    |s.idle| <= IDLE_HANDLES && NoRepeats(s.idle) && NoRepeats(s.closed) &&
    (forall h :: h in s.created <==> h in s.idle || h in s.closed || Held(s, h)) &&
    (forall h :: h in s.idle ==> h !in s.closed && !Held(s, h)) &&
    (forall h :: h in s.closed ==> !Held(s, h)) &&
    (forall r, q, h :: Holds(s, r, h) && Holds(s, q, h) ==> r == q) &&
    (s.freed ==> s.idle == [] && s.requests == map[])
  }

  lemma {:induction false} SafeInitially()
    ensures Safe(INITIAL)
  {
  }

  lemma {:induction false} RepeatsSnoc(hs: seq<Handle>, h: Handle)
    ensures NoRepeats(hs + [h]) <==> NoRepeats(hs) && h !in hs
  {
    if NoRepeats(hs + [h]) {
      forall i, j | 0 <= i < j < |hs| ensures hs[i] != hs[j] {
        assert (hs + [h])[i] != (hs + [h])[j];
      }
      forall i | 0 <= i < |hs| ensures hs[i] != h {
        assert (hs + [h])[i] != (hs + [h])[|hs|];
      }
    }
  }

  lemma {:induction false} PopKeepsSafe(s: State, r: Request)
    requires Safe(s) && Enabled(s, AcquirePop(r))
    ensures Safe(Next(s, AcquirePop(r)))
  {
    var last := |s.idle| - 1;
    assert s.idle == s.idle[..last] + [s.idle[last]];
    RepeatsSnoc(s.idle[..last], s.idle[last]);
    Taken(s, Next(s, AcquirePop(r)), r, s.idle[last]);
  }

  lemma {:induction false} CreateKeepsSafe(s: State, r: Request, made: Handle)
    requires Safe(s) && Enabled(s, Create(r, made))
    ensures Safe(Next(s, Create(r, made)))
  {
    Taken(s, Next(s, Create(r, made)), r, made);
  }

  lemma {:induction false} KeepKeepsSafe(s: State, r: Request)
    requires Safe(s) && Enabled(s, ReleaseKeep(r))
    ensures Safe(Next(s, ReleaseKeep(r)))
  {
    var h := s.requests[r].h;
    assert Holds(s, r, h);
    RepeatsSnoc(s.idle, h);
    Returned(s, Next(s, ReleaseKeep(r)), r, h);
  }

  lemma {:induction false} CloseKeepsSafe(s: State, r: Request)
    requires Safe(s) && Enabled(s, Close(r))
    ensures Safe(Next(s, Close(r)))
  {
    var h := s.requests[r].h;
    assert Holds(s, r, h);
    RepeatsSnoc(s.closed, h);
    Returned(s, Next(s, Close(r)), r, h);
  }

  lemma {:induction false} FreeKeepsSafe(s: State)
    requires Safe(s) && Enabled(s, Free)
    ensures Safe(Next(s, Free))
  {
    AppendNoRepeats(s.closed, s.idle);
    assert forall h :: Held(Next(s, Free), h) <==> Held(s, h);
  }

  lemma {:induction false} StepKeepsSafe(s: State, step: Step)
    requires Safe(s) && Enabled(s, step)
    ensures Safe(Next(s, step))
  {
    match step
    case AcquirePop(r) => PopKeepsSafe(s, r);
    case Create(r, made) => CreateKeepsSafe(s, r, made);
    case ReleaseKeep(r) => KeepKeepsSafe(s, r);
    case Close(r) => CloseKeepsSafe(s, r);
    case Free => FreeKeepsSafe(s);
    case AcquireMiss(r) => Rephased(s, Next(s, step), r);
    case Reset(r) => Rephased(s, Next(s, step), r);
    case CreateFails(r) => Rephased(s, Next(s, step), r);
    case ReleaseFull(r) => Rephased(s, Next(s, step), r);
  }

  lemma {:induction false} AppendNoRepeats(a: seq<Handle>, b: seq<Handle>)
    requires NoRepeats(a) && NoRepeats(b) && forall h :: h in b ==> h !in a
    ensures NoRepeats(a + b)
  {
    if b == [] {
      assert a + b == a;
    } else {
      var front, last := b[..|b| - 1], b[|b| - 1];
      assert b == front + [last];
      RepeatsSnoc(front, last);
      AppendNoRepeats(a, front);
      RepeatsSnoc(a + front, last);
      assert a + b == (a + front) + [last];
    }
  }

  /** Nothing changed about the requests other than r. */
  ghost predicate OthersSame(s: State, t: State, r: Request) {
    forall q :: q != r ==>
      (q in t.requests <==> q in s.requests) && (q in s.requests ==> t.requests[q] == s.requests[q])
  }

  /** A request that holds the same handle as before, or none before and after. */
  lemma {:induction false} Rephased(s: State, t: State, r: Request)
    requires OthersSame(s, t, r)
    requires forall h :: Holds(t, r, h) <==> Holds(s, r, h)
    ensures forall q, h :: Holds(t, q, h) <==> Holds(s, q, h)
    ensures forall h :: Held(t, h) <==> Held(s, h)
  {
    forall q, h ensures Holds(t, q, h) <==> Holds(s, q, h) {
      assert q == r || q != r;
    }
  }

  /** A request that now holds h and held nothing before. */
  lemma {:induction false} Taken(s: State, t: State, r: Request, h: Handle)
    requires OthersSame(s, t, r)
    requires Holds(t, r, h) && forall g :: !Holds(s, r, g)
    ensures forall q, g :: Holds(t, q, g) <==> if q == r then g == h else Holds(s, q, g)
    ensures forall g :: Held(t, g) <==> g == h || Held(s, g)
  {
    forall g | Held(s, g) ensures Held(t, g) {
      var q :| Holds(s, q, g);
      assert Holds(t, q, g);
    }
  }

  /** A request that gave h back and is gone. */
  lemma {:induction false} Returned(s: State, t: State, r: Request, h: Handle)
    requires OthersSame(s, t, r)
    requires Holds(s, r, h) && r !in t.requests
    requires forall p, q, g :: Holds(s, p, g) && Holds(s, q, g) ==> p == q
    ensures forall q, g :: Holds(t, q, g) <==> q != r && Holds(s, q, g)
    ensures forall g :: Held(t, g) <==> g != h && Held(s, g)
  {
    forall g | Held(s, g) && g != h ensures Held(t, g) {
      var q :| Holds(s, q, g);
      assert Holds(t, q, g);
    }
  }

  /** The steps are taken one after the other, each where it is enabled. */
  ghost predicate IsRun(s: State, steps: seq<Step>, t: State) {
    if steps == [] then s == t
    else
      var n := |steps| - 1;
      exists m: State :: IsRun(s, steps[..n], m) && Enabled(m, steps[n]) && Next(m, steps[n]) == t
  }

  /** Over every interleaving, no handle is shared, leaked or closed twice, and at most eight are idle. */
  lemma {:induction false} RunIsSafe(steps: seq<Step>, t: State)
    requires IsRun(INITIAL, steps, t)
    ensures Safe(t)
  {
    if steps == [] {
      SafeInitially();
    } else {
      var n := |steps| - 1;
      var m: State :| IsRun(INITIAL, steps[..n], m) && Enabled(m, steps[n]) && Next(m, steps[n]) == t;
      RunIsSafe(steps[..n], m);
      StepKeepsSafe(m, steps[n]);
    }
  }

  /** After the final free every handle has been closed, once. */
  lemma {:induction false} FreeClosesAll(steps: seq<Step>, t: State)
    requires IsRun(INITIAL, steps, t) && t.freed
    ensures NoRepeats(t.closed) && forall h :: h in t.closed <==> h in t.created
  {
    RunIsSafe(steps, t);
    forall h ensures !Held(t, h) {
      assert forall r :: !Holds(t, r, h);
    }
  }

  function SetOf(hs: seq<Handle>): set<Handle> {
    set h | h in hs
  }

  lemma {:induction false} SetOfNoRepeats(hs: seq<Handle>)
    requires NoRepeats(hs)
    ensures |SetOf(hs)| == |hs|
  {
    if hs != [] {
      var front, last := hs[..|hs| - 1], hs[|hs| - 1];
      assert hs == front + [last];
      RepeatsSnoc(front, last);
      SetOfNoRepeats(front);
      assert SetOf(hs) == SetOf(front) + {last};
    }
  }

  ghost function HeldBy(s: State, rs: set<Request>): (hs: set<Handle>)
    requires rs <= s.requests.Keys
    ensures |hs| <= |rs|
    ensures forall h :: h in hs <==> exists r :: r in rs && Holds(s, r, h)
    decreases |rs|
  {
    if rs == {} then {}
    else
      var r :| r in rs;
      var rest := HeldBy(s, rs - {r});
      assert forall q :: q in rs <==> q == r || q in rs - {r};
      assert |rs - {r}| == |rs| - 1;
      if s.requests[r].Missed? then rest else rest + {s.requests[r].h}
  }

  /** Sustained traffic keeps few connections open: at most eight more than there are requests. */
  lemma {:induction false} OpenHandlesBounded(s: State)
    requires Safe(s)
    ensures |s.created| <= |s.closed| + IDLE_HANDLES + |s.requests|
  {
    var held := HeldBy(s, s.requests.Keys);
    SetOfNoRepeats(s.idle);
    SetOfNoRepeats(s.closed);
    assert s.created == SetOf(s.idle) + SetOf(s.closed) + held by {
      EverywhereOnce(s, held);
    }
    hide *;
    assert |s.requests.Keys| == |s.requests|;
  }

  lemma {:induction false} EverywhereOnce(s: State, held: set<Handle>)
    requires Safe(s) && forall h :: h in held <==> exists r :: r in s.requests.Keys && Holds(s, r, h)
    ensures s.created == SetOf(s.idle) + SetOf(s.closed) + held
  {
    forall h ensures h in held <==> Held(s, h) {
      assert forall r :: Holds(s, r, h) ==> r in s.requests.Keys;
    }
  }

  // ---------------------------------------------------------------- the pool object

  /** The curl library as the pool uses it. */
  class Curl {
    var created: set<Handle>
    var closed: seq<Handle>

    constructor ()
      ensures created == {} && closed == []
    {
      created, closed := {}, [];
    }

    /** curl_easy_init: a handle not used before, or NULL when the library has none to give. */
    method EasyInit(candidate: Handle, available: bool) returns (h: Option<Handle>)
      modifies this
      ensures h == if available && candidate !in old(created) then Some(candidate) else None
      ensures created == (if h.Some? then old(created) + {candidate} else old(created)) && closed == old(closed)
    {
      if !available || candidate in created {
        return None;
      }
      created := created + {candidate};
      return Some(candidate);
    }

    /** curl_easy_cleanup. */
    method EasyCleanup(h: Handle)
      modifies this
      ensures closed == old(closed) + [h] && created == old(created)
    {
      closed := closed + [h];
    }
  }

  class Pool {
    const idle: array<Handle>
    var count: nat

    constructor ()
      ensures Valid() && Contents() == [] && fresh(idle)
    {
      idle := new Handle[IDLE_HANDLES];
      count := 0;
    }

    ghost predicate Valid()
      reads this
    {
      idle.Length == IDLE_HANDLES && count <= IDLE_HANDLES
    }

    ghost function Contents(): (hs: seq<Handle>)
      requires Valid()
      reads this, idle
      ensures |hs| == count
    {
      idle[..count]
    }

    /** The object and the library are in this state of the machine. */
    ghost predicate Is(s: State, curl: Curl)
      reads this, idle, curl
    {
      Valid() && Contents() == s.idle && curl.created == s.created && curl.closed == s.closed
    }

    /** acquire_handle, as one request's steps. */
    method Acquire(curl: Curl, candidate: Handle, available: bool, ghost s: State, ghost r: Request)
      returns (curlHandle: Option<Handle>, ghost after: State)
      requires Is(s, curl) && !s.freed && r !in s.requests
      modifies this`count, curl
      ensures Is(after, curl) && !after.freed
      ensures s.idle != [] ==>
                after == Next(Next(s, AcquirePop(r)), Reset(r)) && curlHandle == Some(after.requests[r].h)
      ensures s.idle == [] && curlHandle.Some? ==>
                curlHandle.value !in s.created && after == Next(Next(s, AcquireMiss(r)), Create(r, curlHandle.value))
      ensures s.idle == [] && curlHandle.None? ==> after == Next(Next(s, AcquireMiss(r)), CreateFails(r))
    {
      var handle: Option<Handle> := None;
      if count > 0 {
        count := count - 1;
        handle := Some(idle[count]);
      }
      if handle.None? {
        after := Next(s, AcquireMiss(r));
        curlHandle := curl.EasyInit(candidate, available);
        after := Next(after, if curlHandle.None? then CreateFails(r) else Create(r, candidate));
        return;
      }
      after := Next(Next(s, AcquirePop(r)), Reset(r));
      curlHandle := handle;
    }

    /** release_handle. */
    method Release(curl: Curl, h: Handle, ghost s: State, ghost r: Request) returns (ghost after: State)
      requires Is(s, curl) && !s.freed && In(s, r, true) && s.requests[r].h == h
      modifies this`count, idle, curl
      ensures Is(after, curl) && !after.freed
      ensures after == if |s.idle| < IDLE_HANDLES then Next(s, ReleaseKeep(r))
                       else Next(Next(s, ReleaseFull(r)), Close(r))
    {
      var kept := false;
      if count < IDLE_HANDLES {
        idle[count] := h;
        count := count + 1;
        kept := true;
        after := Next(s, ReleaseKeep(r));
      } else {
        after := Next(Next(s, ReleaseFull(r)), Close(r));
      }
      if !kept {
        curl.EasyCleanup(h);
      }
    }

    /** The teardown in knishio_http_client_free, with no request in flight. */
    method FreeHandles(curl: Curl, ghost s: State) returns (ghost after: State)
      requires Is(s, curl) && !s.freed && s.requests == map[]
      modifies curl
      ensures after == Next(s, Free) && curl.closed == after.closed && curl.created == after.created
    {
      for i := 0 to count
        invariant curl.closed == s.closed + idle[..i] && curl.created == s.created
      {
        curl.EasyCleanup(idle[i]);
      }
      after := Next(s, Free);
    }
  }

  /** The handle given back last is the first to be used again, after a reset, and none is closed on the way. */
  lemma {:induction false} ReusesLast(s: State, r: Request, q: Request)
    requires Enabled(s, ReleaseKeep(r)) && (q == r || q !in s.requests)
    ensures var kept := Next(s, ReleaseKeep(r));
            Enabled(kept, AcquirePop(q)) && !Enabled(kept, AcquireMiss(q)) &&
            var popped := Next(kept, AcquirePop(q));
            Enabled(popped, Reset(q)) && !In(popped, q, true) &&
            Holds(Next(popped, Reset(q)), q, s.requests[r].h) && In(Next(popped, Reset(q)), q, true) &&
            popped.idle == s.idle && popped.closed == s.closed && popped.created == s.created
  {
    var h := s.requests[r].h;
    assert (s.idle + [h])[..|s.idle|] == s.idle;
  }

  /** A request keeps or closes its handle by the idle handles alone: it keeps it exactly when fewer than eight are idle. */
  lemma {:induction false} KeepsBelowEight(s: State, r: Request)
    requires !s.freed && In(s, r, true)
    ensures Enabled(s, ReleaseKeep(r)) <==> |s.idle| < 8
    ensures Enabled(s, ReleaseFull(r)) <==> |s.idle| >= 8
    ensures |s.idle| >= 8 ==>
              var surplus := Next(s, ReleaseFull(r));
              Enabled(surplus, Close(r)) && Next(surplus, Close(r)).closed == s.closed + [s.requests[r].h]
  {
  }
}
