/** The host's side of the exchange: the order in which it submits, exports and imports the sync files. A semaphore is
    named (sender, epoch, receiver): the sender's submission of that epoch signals it, its sync file is moved to the
    receiver's semaphore, and the receiver's next submission waits on that. */
module SyncFiles {

  import Exchange

  type Semaphore = (nat, nat, nat)

  /** Where submission i of member d comes in the order. */
  function PlaceOf(W: nat, i: nat, d: nat): nat { i * W + d }

  lemma PlaceBefore(W: nat, j: nat, e: nat, i: nat, d: nat)
    requires e < W && d <= W && (j < i || (j == i && e < d))
    ensures PlaceOf(W, j, e) < PlaceOf(W, i, d)
    ensures d == 0 ==> PlaceOf(W, i, d) == PlaceOf(W, i - 1, W)
    ensures d > 0 ==> PlaceOf(W, i, d) == PlaceOf(W, i, d - 1) + 1
  {
    Row(W, j);
    if j < i {
      Exchange.Multiples(j + 1, i, W);
    }
    if i > 0 {
      Row(W, i - 1);
    }
  }

  lemma Row(W: nat, i: nat)
    ensures (i + 1) * W == i * W + W
  {
  }

  /** What has become of the semaphores. The methods' preconditions are the API's rules: a semaphore is signalled by one
      submission, exported after that submission is made, imported once, and waited on once, after its import. */
  class Device {
    const W: nat
    const N: nat
    var signalled: set<Semaphore>
    var imported: set<Semaphore>
    var waited: set<Semaphore>
    var submissions: seq<(nat, nat)>   // (submission, member), in the order made

    constructor (W: nat, N: nat)
      ensures this.W == W && this.N == N
      ensures signalled == imported == waited == {} && submissions == []
    {
      this.W, this.N := W, N;
      signalled, imported, waited, submissions := {}, {}, {}, [];
    }

    method Submit(i: nat, d: nat, waits: set<Semaphore>, signals: set<Semaphore>)
      requires waits <= imported && waits !! waited
      requires signals !! signalled
      modifies this`signalled, this`waited, this`submissions
      ensures signalled == old(signalled) + signals && waited == old(waited) + waits
      ensures submissions == old(submissions) + [(i, d)]
    {
      signalled, waited := signalled + signals, waited + waits;
      submissions := submissions + [(i, d)];
    }

    method Move(semaphore: Semaphore)
      requires semaphore in signalled && semaphore !in imported
      modifies this`imported
      ensures imported == old(imported) + {semaphore}
    {
      imported := imported + {semaphore};
    }

    /** The semaphores signalled by the submissions made before submission i of member d. */
    ghost function Signals(i: nat, d: nat): set<Semaphore> {
      set s, e, t | 0 <= s < W && 0 <= e < N && 0 <= t < W && t != s && (e < i || (e == i && s < d)) :: (s, e, t)
    }

    /** The semaphores those submissions waited on. */
    ghost function Waits(i: nat, d: nat): set<Semaphore> {
      set s, e, t | 0 <= s < W && 0 <= e < N && 0 <= t < W && t != s && (e + 1 < i || (e + 1 == i && t < d)) ::
          (s, e, t)
    }

    /** Every submission before submission i of member d, epoch by epoch and member by member. */
    ghost function Order(i: nat, d: nat): seq<(nat, nat)>
      requires d <= W
      decreases i, d
    {
      if d > 0 then Order(i, d - 1) + [(i, d - 1)] else if i > 0 then Order(i - 1, W) else []
    }

    ghost function FromPeers(e: nat, d: nat, t: nat): set<Semaphore> {
      set p | 0 <= p < t && p != d :: (p, e, d)
    }

    /** Submission i of member d, then its sync files moved to the peers. */
    method SubmitOne(i: nat, d: nat)
      requires i <= N && d < W
      requires signalled == imported == Signals(i, d) && waited == Waits(i, d) && submissions == Order(i, d)
      modifies this
      ensures signalled == imported == Signals(i, d + 1) && waited == Waits(i, d + 1) && submissions == Order(i, d + 1)
      ensures old(waited) !! PeerWaits(i, d) && waited == old(waited) + PeerWaits(i, d)
    {
      var waits: set<Semaphore>, signals: set<Semaphore> := {}, {};
      for t := 0 to W
        invariant waits == if i > 0 then FromPeers(i - 1, d, t) else {}
        invariant signals == if i < N then set p | 0 <= p < t && p != d :: (d, i, p) else {}
      {
        if t != d {
          if i > 0 {
            waits := waits + {(t, i - 1, d)};
          }
          if i < N {
            signals := signals + {(d, i, t)};
          }
        }
      }
      Submit(i, d, waits, signals);
      assert Signals(i, d) + signals == Signals(i, d + 1);
      assert Waits(i, d) + waits == Waits(i, d + 1);
      if i < N {
        MoveAll(i, d);
      }
    }

    /** The sync files of submission i of member d moved to each of its peers. */
    method MoveAll(i: nat, d: nat)
      requires i < N && d < W && signalled == Signals(i, d + 1) && imported == Signals(i, d)
      modifies this`imported
      ensures imported == signalled
    {
      for t := 0 to W
        invariant imported == Signals(i, d) + set p | 0 <= p < t && p != d :: (d, i, p)
      {
        if t != d {
          Move((d, i, t));
        }
      }
    }

    /** The chain's submissions: no wait is submitted before its import, and at the end every semaphore was signalled,
        imported and waited on exactly once. */
    method Chain()
      requires signalled == imported == waited == {} && submissions == []
      modifies this
      ensures submissions == Order(N, W)
      ensures signalled == imported == waited
      ensures forall s: nat, e: nat, t: nat :: (s, e, t) in waited <==> s < W && e < N && t < W && t != s
    {
      for i := 0 to N + 1
        invariant signalled == imported == Signals(i, 0) && waited == Waits(i, 0) && submissions == Order(i, 0)
      {
        for d := 0 to W
          invariant signalled == imported == Signals(i, d) && waited == Waits(i, d) && submissions == Order(i, d)
        {
          SubmitOne(i, d);
        }
        assert Signals(i, W) == Signals(i + 1, 0) && Waits(i, W) == Waits(i + 1, 0) && Order(i, W) == Order(i + 1, 0);
      }
      assert Signals(N + 1, 0) == Waits(N + 1, 0);
    }

    // ----- what the order and the waits mean for the exchange -----

    /** Submission j of member e is at place j * W + e of the order. */
    lemma {:induction false} OrderPlace(i: nat, d: nat, j: nat, e: nat)
      requires d <= W && e < W && (j < i || (j == i && e < d))
      ensures |Order(i, d)| == PlaceOf(W, i, d) && PlaceOf(W, j, e) < |Order(i, d)|
      ensures Order(i, d)[PlaceOf(W, j, e)] == (j, e)
      decreases i, d
    {
      hide PlaceOf;
      OrderLength(i, d);
      PlaceBefore(W, j, e, i, d);
      if d > 0 {
        OrderLength(i, d - 1);
        if (j, e) != (i, d - 1) {
          OrderPlace(i, d - 1, j, e);
        }
      } else {
        OrderPlace(i - 1, W, j, e);
      }
    }

    lemma {:induction false} OrderLength(i: nat, d: nat)
      requires d <= W
      ensures |Order(i, d)| == PlaceOf(W, i, d)
      decreases i, d
    {
      if d > 0 {
        OrderLength(i, d - 1);
      } else if i > 0 {
        OrderLength(i - 1, W);
      }
    }

    /** The semaphores submission i of member d waits on. */
    ghost function PeerWaits(i: nat, d: nat): set<Semaphore> {
      if i > 0 then FromPeers(i - 1, d, W) else {}
    }

    lemma PeerWaitsAre(i: nat, d: nat, w: Semaphore)
      ensures w in PeerWaits(i, d) <==> i > 0 && w.0 < W && w.0 != d && w.1 == i - 1 && w.2 == d
    {
    }

    /** Every semaphore the submission waits on is of a submission that has ended. */
    ghost predicate PeersEnded<T>(members: seq<Exchange.Member<T>>, i: nat, d: nat) {
      forall w | w in PeerWaits(i, d) :: w.0 < |members| && w.1 < members[w.0].sub
    }

    lemma PeersEndedIs<T>(members: seq<Exchange.Member<T>>, i: nat, d: nat)
      requires |members| == W
      ensures PeersEnded(members, i, d) <==> (i > 0 ==> forall t | 0 <= t < W && t != d :: i <= members[t].sub)
    {
      if PeersEnded(members, i, d) && i > 0 {
        forall t | 0 <= t < W && t != d
          ensures i <= members[t].sub
        {
          PeerWaitsAre(i, d, (t, i - 1, d));
        }
      } else {
        forall w | w in PeerWaits(i, d)
          ensures w.0 < W && w.0 != d && w.1 == i - 1
        {
          PeerWaitsAre(i, d, w);
        }
      }
    }

    /** A member can start its next submission exactly when it is idle, the host has made that submission, and the
        submissions whose semaphores it waits on have ended. */
    lemma StartWaits<T>(c: Exchange.Config<T>, s: Exchange.State<T>, d: nat)
      requires c.W == W && c.N == N && Exchange.Shaped(c, s) && d < W
      ensures var m := s.members[d];
              Exchange.Enabled(c, s, Exchange.Start(d)) <==>
                m.phase.Idle? && m.sub <= N && PlaceOf(W, m.sub, d) < s.host && PeersEnded(s.members, m.sub, d)
    {
      hide PeersEnded;
      PeersEndedIs(s.members, s.members[d].sub, d);
    }
  }
}
