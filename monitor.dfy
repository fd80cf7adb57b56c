/** The monitoring loop of app.py (iniciar_monitor): every five minutes it
    probes the page; on the first probe that finds slots after a probe that
    did not (or after start), it sends the alert once to every registered
    number, and it stays quiet until a probe finds no slots again. The
    endless loop is run here over a finite sequence of polls; the sleep is
    left out. */
module Monitor {
  import opened Availability
  import Registry

  /** One call to the messaging gateway: the number and whether the gateway
      accepted the request (a rejected call raises, which the loop catches and
      logs); acceptance says nothing about later delivery. */
  datatype Attempt = Attempt(to: string, accepted: bool)

  /** What the loop sees on one iteration: the page (or the failure to
      fetch it), the list of numbers `cargar_usuarios` would load at that
      moment, and the positions in that list whose send the gateway would
      reject. */
  datatype Poll = Poll(page: Fetch, usuarios: seq<string>, failing: set<nat>)

  /** The send attempts of one dispatch pass over `usuarios`. */
  function Attempts(usuarios: seq<string>, failing: set<nat>): (r: seq<Attempt>)
    ensures |r| == |usuarios|
    ensures forall k :: 0 <= k < |r| ==> r[k].to == usuarios[k]
    ensures forall k :: 0 <= k < |r| ==> (r[k].accepted <==> k !in failing)
    decreases |usuarios|
  {
    if usuarios == [] then []
    else
      var n := |usuarios| - 1;
      Attempts(usuarios[..n], failing) + [Attempt(usuarios[n], n !in failing)]
  }

  /** The availability signal of each poll. */
  function Signals(polls: seq<Poll>): seq<bool>
  {
    seq(|polls|, i requires 0 <= i < |polls| => Probe(polls[i].page))
  }

  /** Tick `i` opens an availability window: slots now, none on the tick
      before (or it is the first tick). */
  predicate Opens(s: seq<bool>, i: int)
    requires 0 <= i < |s|
  {
    s[i] && (i == 0 || !s[i - 1])
  }

  /** The number of availability windows in a run of signals. */
  function Windows(s: seq<bool>): nat
  {
    if s == [] then 0
    else Windows(s[..|s| - 1]) + (if Opens(s, |s| - 1) then 1 else 0)
  }

  /** The number of ticks that find slots. */
  function TrueTicks(s: seq<bool>): nat
  {
    if s == [] then 0
    else TrueTicks(s[..|s| - 1]) + (if s[|s| - 1] then 1 else 0)
  }

  /** The send attempts a run of polls should produce: one dispatch pass on
      each tick that opens a window, over the list loaded on that tick. */
  function ExpectedLog(polls: seq<Poll>): seq<Attempt>
  {
    if polls == [] then []
    else
      var n := |polls| - 1;
      ExpectedLog(polls[..n])
        + (if Opens(Signals(polls), n) then Attempts(polls[n].usuarios, polls[n].failing) else [])
  }

  /** The state of the monitoring thread: the `ya_aviso` flag and, for the
      proofs, the log of send attempts it has made. */
  class MonitorThread {
    var yaAviso: bool
    var sent: seq<Attempt>

    /** The thread starts with the flag down and nothing sent. */
    constructor ()
      ensures !yaAviso && sent == []
    {
      yaAviso := false;
      sent := [];
    }

    /** The inner loop: one send attempt per loaded number, in list order;
        a failed send is caught and the loop goes on. */
    method Dispatch(usuarios: seq<string>, failing: set<nat>)
      modifies this`sent
      ensures sent == old(sent) + Attempts(usuarios, failing)
    {
      var k := 0;
      while k < |usuarios|
        invariant 0 <= k <= |usuarios|
        invariant sent == old(sent) + Attempts(usuarios[..k], failing)
      {
        var numero := usuarios[k];
        var accepted := k !in failing;
        sent := sent + [Attempt(numero, accepted)];
        k := k + 1;
        assert usuarios[..k][..k - 1] == usuarios[..k - 1];
      }
      assert usuarios[..k] == usuarios;
    }

    /** One iteration of the outer loop. */
    method Tick(poll: Poll) returns (dispatched: bool)
      modifies this
      ensures dispatched <==> Probe(poll.page) && !old(yaAviso)
      ensures yaAviso == Probe(poll.page)
      ensures sent == old(sent) + (if dispatched then Attempts(poll.usuarios, poll.failing) else [])
    {
      dispatched := false;
      if Probe(poll.page) {
        if !yaAviso {
          Dispatch(poll.usuarios, poll.failing);
          dispatched := true;
          yaAviso := true;
        }
      } else {
        yaAviso := false;
      }
    }
  }

  /** The monitoring thread run for `|polls|` iterations from its start: it
      dispatches once per availability window, makes exactly the expected
      send attempts, and ends with the flag equal to the last signal. */
  method Run(polls: seq<Poll>) returns (dispatches: nat, log: seq<Attempt>, yaAviso: bool)
    ensures dispatches == Windows(Signals(polls))
    ensures log == ExpectedLog(polls)
    ensures yaAviso == (|polls| > 0 && Probe(polls[|polls| - 1].page))
  {
    var m := new MonitorThread();
    ghost var s := Signals(polls);
    dispatches := 0;
    var i := 0;
    while i < |polls|
      invariant 0 <= i <= |polls|
      invariant m.yaAviso == (i > 0 && s[i - 1])
      invariant dispatches == Windows(s[..i])
      invariant m.sent == ExpectedLog(polls[..i])
    {
      RunStep(polls, i);
      var d := m.Tick(polls[i]);
      assert d == Opens(s, i);
      if d {
        dispatches := dispatches + 1;
      }
      i := i + 1;
    }
    assert s[..i] == s;
    assert polls[..i] == polls;
    log := m.sent;
    yaAviso := m.yaAviso;
  }

  /** How the window count and the expected log grow by one poll. */
  lemma RunStep(polls: seq<Poll>, i: nat)
    requires i < |polls|
    ensures Signals(polls)[i] == Probe(polls[i].page)
    ensures Windows(Signals(polls)[..i + 1])
         == Windows(Signals(polls)[..i]) + (if Opens(Signals(polls), i) then 1 else 0)
    ensures ExpectedLog(polls[..i + 1]) == ExpectedLog(polls[..i])
         + (if Opens(Signals(polls), i) then Attempts(polls[i].usuarios, polls[i].failing) else [])
  {
    var s := Signals(polls);
    assert s[..i + 1][..i] == s[..i];
    assert polls[..i + 1][..i] == polls[..i];
    assert Signals(polls[..i + 1]) == s[..i + 1];
  }

  /** Two dispatches always have a tick without slots between them: within
      one availability window the alert goes out at most once. */
  lemma OnePassPerWindow(s: seq<bool>, i: int, j: int)
    requires 0 <= i < j < |s|
    requires Opens(s, i) && Opens(s, j)
    ensures exists k :: i < k < j && !s[k]
  {
    assert !s[j - 1];
  }

  /** The ticks that open a window: those that find slots and are the first
      tick or follow a tick that did not. */
  function OpeningTicks(s: seq<bool>): set<int>
  {
    set i | 0 <= i < |s| && Opens(s, i)
  }

  /** The recursive count agrees with counting the opening ticks directly. */
  lemma {:induction false} WindowsCountsOpeningTicks(s: seq<bool>)
    ensures Windows(s) == |OpeningTicks(s)|
  {
    if s != [] {
      var n := |s| - 1;
      var t := s[..n];
      WindowsCountsOpeningTicks(t);
      assert forall i :: 0 <= i < n ==> (Opens(s, i) <==> Opens(t, i));
      if Opens(s, n) {
        assert OpeningTicks(s) == OpeningTicks(t) + {n};
      } else {
        assert OpeningTicks(s) == OpeningTicks(t);
      }
    }
  }

  /** There are never more dispatches than ticks that find slots. */
  lemma {:induction false} WindowsAtMostTrueTicks(s: seq<bool>)
    ensures Windows(s) <= TrueTicks(s)
  {
    if s != [] {
      WindowsAtMostTrueTicks(s[..|s| - 1]);
    }
  }

  /** Windows alternate with gaps, so at most half the ticks (rounded up)
      can dispatch; the bound is one tighter when the run ends without slots. */
  lemma {:induction false} WindowsAtMostHalf(s: seq<bool>)
    ensures 2 * Windows(s) <= |s| + (if s != [] && s[|s| - 1] then 1 else 0)
  {
    if s != [] {
      var t := s[..|s| - 1];
      WindowsAtMostHalf(t);
    }
  }

  /** Slots found on every tick of a non-empty run: exactly one dispatch. */
  lemma {:induction false} SteadyAvailabilityDispatchesOnce(s: seq<bool>)
    requires |s| > 0
    requires forall i :: 0 <= i < |s| ==> s[i]
    ensures Windows(s) == 1
  {
    if |s| > 1 {
      SteadyAvailabilityDispatchesOnce(s[..|s| - 1]);
    }
  }

  /** No slots on any tick: nothing is ever sent. */
  lemma {:induction false} NoSlotsNoDispatch(s: seq<bool>)
    requires forall i :: 0 <= i < |s| ==> !s[i]
    ensures Windows(s) == 0
  {
    if s != [] {
      NoSlotsNoDispatch(s[..|s| - 1]);
    }
  }

  /** The run unavailable, available three times, unavailable, available
      dispatches twice, not four times. */
  lemma SixTickExample()
    ensures Windows([false, true, true, true, false, true]) == 2
  {
    var s := [false, true, true, true, false, true];
    assert [false][..0] == [];
    assert Windows([false]) == 0;
    assert [false, true][..1] == [false];
    assert Windows([false, true]) == 1;
    assert [false, true, true][..2] == [false, true];
    assert Windows([false, true, true]) == 1;
    assert s[..4][..3] == [false, true, true];
    assert Windows(s[..4]) == 1;
    assert s[..5][..4] == s[..4];
    assert Windows(s[..5]) == 1;
    assert s[..5] == s[..|s| - 1];
  }

  /** A fetch that fails between two probes that find slots counts as "no
      slots": it re-arms the flag and the alert goes out a second time. */
  lemma TransientFailureAlertsAgain(open: Fetch, usuarios: seq<string>, failing: set<nat>)
    requires Probe(open)
    ensures Windows(Signals([Poll(open, usuarios, failing), Poll(FetchFailed, usuarios, failing),
                             Poll(open, usuarios, failing)])) == 2
  {
    var polls := [Poll(open, usuarios, failing), Poll(FetchFailed, usuarios, failing), Poll(open, usuarios, failing)];
    var s := Signals(polls);
    assert s == [true, false, true];
    assert [true][..0] == [];
    assert Windows([true]) == 1;
    assert [true, false][..1] == [true];
    assert Windows([true, false]) == 1;
    assert s[..2] == [true, false];
  }

  /** Every number of a duplicate-free list gets exactly one send attempt in
      a dispatch pass, whether or not other sends fail. */
  lemma ExactlyOneAttemptEach(usuarios: seq<string>, failing: set<nat>, numero: string)
    requires Registry.Distinct(usuarios)
    requires numero in usuarios
    ensures exists k :: 0 <= k < |usuarios| && Attempts(usuarios, failing)[k].to == numero
    ensures forall k, l :: 0 <= k < l < |usuarios| ==>
      !(Attempts(usuarios, failing)[k].to == numero && Attempts(usuarios, failing)[l].to == numero)
  {
    var k :| 0 <= k < |usuarios| && usuarios[k] == numero;
    assert Attempts(usuarios, failing)[k].to == numero;
  }

  /** Three numbers, the second one failing: the first and third are still
      sent to, each once, in order. */
  lemma PartialFailureExample()
    ensures Attempts(["+111", "+222", "+333"], {1})
         == [Attempt("+111", true), Attempt("+222", false), Attempt("+333", true)]
  {
    var r := Attempts(["+111", "+222", "+333"], {1});
    assert r[0] == Attempt("+111", true);
    assert r[1] == Attempt("+222", false);
    assert r[2] == Attempt("+333", true);
  }

  /** The same number listed twice gets two attempts, and the gateway may
      accept one and reject the other. */
  lemma RepeatedNumberExample()
    ensures Attempts(["+111", "+111"], {1}) == [Attempt("+111", true), Attempt("+111", false)]
  {
    var r := Attempts(["+111", "+111"], {1});
    assert r[0] == Attempt("+111", true);
    assert r[1] == Attempt("+111", false);
  }
}
