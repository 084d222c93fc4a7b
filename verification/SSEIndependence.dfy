/** A slow or misbehaving client cannot disturb another: erasing every other client leaves a valid run. */
module SSEIndependence {
  import opened LogEntries
  import opened SSEHub

  /** The hub as connection `c` sees it: no other connection exists. */
  function Alone(s: State, c: nat): State {
    s.(clients := s.clients * {c}, conns := map d | d in s.conns && d == c :: s.conns[d])
  }

  predicate Concerns(a: Action, c: nat) {
    match a
    case Connect(d) => d == c
    case Register(d) => d == c
    case Take(d, _) => d == c
    case SeeClosed(d) => d == c
    case Disconnect(d) => d == c
    case Unregister(d) => d == c
    case _ => true
  }

  function Erase(acts: seq<Action>, c: nat): seq<Action> {
    if acts == [] then [] else
      (if Concerns(acts[0], c) then [acts[0]] else []) + Erase(acts[1..], c)
  }

  lemma OthersAreInvisible(s: State, a: Action, c: nat)
    requires Inv(s) && Enabled(s, a) && !Concerns(a, c)
    ensures Alone(Apply(s, a), c) == Alone(s, c)
  {
    var s' := Apply(s, a);
    assert s'.clients * {c} == s.clients * {c};
    assert s'.panicked == s.panicked by {
      InvStep(s, a);
    }
    assert Alone(s', c).conns == Alone(s, c).conns;
  }

  /** No registered client's channel is closed, so neither side of the comparison sees a panic. */
  lemma NoPanicAlone(s: State, a: Action, c: nat)
    requires Inv(s) && Enabled(s, a) && Enabled(Alone(s, c), a)
    ensures !Apply(s, a).panicked && !Apply(Alone(s, c), a).panicked
  {
    InvStep(s, a);
    assert forall d :: d in s.clients ==> ConnInv(s, d);
    assert forall d :: d in Alone(s, c).clients ==> d in s.clients && Alone(s, c).conns[d] == s.conns[d];
  }

  lemma FanOutAlone(s: State, m: Msg, c: nat)
    ensures Alone(FanOut(s, m), c).conns == FanOut(Alone(s, c), m).conns
  {
  }

  lemma OwnConns(s: State, a: Action, c: nat)
    requires Enabled(s, a) && Concerns(a, c)
    ensures Enabled(Alone(s, c), a)
    ensures Alone(Apply(s, a), c).conns == Apply(Alone(s, c), a).conns
  {
    if a.Dispatch? {
      FanOutAlone(s.(broadcast := s.broadcast[1..]), s.broadcast[0], c);
    } else if a.Heartbeat? {
      FanOutAlone(s, KeepAlive, c);
    }
  }

  lemma OwnClients(s: State, a: Action, c: nat)
    requires Enabled(s, a) && Enabled(Alone(s, c), a) && Concerns(a, c)
    ensures var s', t' := Alone(Apply(s, a), c), Apply(Alone(s, c), a);
      && s'.clients == t'.clients && s'.hub == t'.hub && s'.stopping == t'.stopping
      && s'.broadcast == t'.broadcast && s'.published == t'.published && s'.dispatched == t'.dispatched
  {
  }

  lemma OwnStepsCommute(s: State, a: Action, c: nat)
    requires Inv(s) && Enabled(s, a) && Concerns(a, c)
    ensures Enabled(Alone(s, c), a) && Alone(Apply(s, a), c) == Apply(Alone(s, c), a)
  {
    OwnConns(s, a, c);
    OwnClients(s, a, c);
    NoPanicAlone(s, a, c);
  }

  /**
    For every run and every connection, the run with all steps of the other connections left out is a
    valid run too, and in it the connection ends in the same state: same channel, same messages written.
  */
  lemma {:induction false} ClientIndependence(s: State, acts: seq<Action>, c: nat)
    requires Inv(s) && CanRun(s, acts)
    ensures CanRun(Alone(s, c), Erase(acts, c))
    ensures Run(Alone(s, c), Erase(acts, c)) == Alone(Run(s, acts), c)
    decreases |acts|
  {
    if acts != [] {
      var a, s1 := acts[0], Apply(s, acts[0]);
      InvStep(s, a);
      ClientIndependence(s1, acts[1..], c);
      if Concerns(a, c) {
        OwnStepsCommute(s, a, c);
        assert Erase(acts, c)[0] == a && Erase(acts, c)[1..] == Erase(acts[1..], c);
      } else {
        OthersAreInvisible(s, a, c);
        assert Erase(acts, c) == Erase(acts[1..], c);
      }
    }
  }

  /** From the start: what `c` has been sent is the same as if nobody else had ever connected. */
  lemma DeliveredAsIfAlone(acts: seq<Action>, c: nat)
    requires CanRun(Init, acts) && c in Run(Init, acts).conns
    ensures CanRun(Init, Erase(acts, c))
    ensures var alone := Run(Init, Erase(acts, c));
      c in alone.conns && alone.conns[c] == Run(Init, acts).conns[c] && alone.conns.Keys == {c}
  {
    assert Alone(Init, c) == Init;
    ClientIndependence(Init, acts, c);
  }
}
