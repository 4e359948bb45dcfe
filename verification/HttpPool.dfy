/** `HTTPConnectionPool` (src/servers/http/http_connection.cc): leasing connections and
    taking them back, as a transition system whose actions are the stretches of
    `get_connection` and `ReleasePtr` between two synchronisation points, and as the
    methods that perform them. Connections are named by numbers. */
module HttpPool {
  import opened Wrappers

  datatype Conn = Conn(created: nat, request: nat)

  /** Where the connections are: in the list; held by a caller; given back and found
      fit, not yet in the list; taken out of use, not yet subtracted from the total. */
  datatype Places = Places(idle: seq<nat>, leased: set<nat>, returning: set<nat>, owed: set<nat>)

  /** `leases` counts how often each connection, past or present, was handed out. */
  datatype State = State(places: Places, total: int, conns: map<nat, Conn>, leases: map<nat, nat>)

  datatype Limits = Limits(maxAlive: nat, maxRequest: nat)

  /** `up` are the connections that `is_connected` finds connected. */
  predicate Usable(l: Limits, c: Conn, isUp: bool, now: nat) { isUp && !(c.created + l.maxAlive < now) }

  predicate Fit(l: Limits, c: Conn, isUp: bool, now: nat) {
    isUp && !(c.created + l.maxAlive <= now) && !(c.request >= l.maxRequest)
  }

  function SetOf(cs: seq<nat>): set<nat> { set c | c in cs }

  ghost predicate Distinct(cs: seq<nat>) { forall i, j :: 0 <= i < j < |cs| ==> cs[i] != cs[j] }

  // ------------------------------------------------------------------ the actions

  datatype Action =
    | Take(now: nat, up: set<nat>)            // the locked search of get_connection
    | Discard(gone: set<nat>)                 // deleting, and lowering m_total
    | Connect(id: nat, now: nat)              // a new connection, and raising m_total
    | Count(id: nat, now: nat, up: set<nat>)  // ReleasePtr up to its verdict
    | PutBack(id: nat)                        // the locked push of ReleasePtr

  ghost predicate Known(s: State) {
    && (forall c <- s.places.idle :: c in s.conns && c in s.leases)
    && (forall c <- s.places.leased :: c in s.conns && c in s.leases)
    && (forall c <- s.places.returning :: c in s.conns && c in s.leases)
    && s.places.owed <= s.leases.Keys
  }

  /** The number of connections before the first usable one. */
  ghost function Unusable(l: Limits, conns: map<nat, Conn>, idle: seq<nat>, now: nat, up: set<nat>): (k: nat)
    requires forall c <- idle :: c in conns
    ensures k <= |idle| && (k < |idle| ==> Usable(l, conns[idle[k]], idle[k] in up, now))
    ensures forall i :: 0 <= i < k ==> !Usable(l, conns[idle[i]], idle[i] in up, now)
  {
    if idle == [] || Usable(l, conns[idle[0]], idle[0] in up, now) then 0
    else 1 + Unusable(l, conns, idle[1..], now, up)
  }

  ghost predicate Enabled(s: State, a: Action)
    requires Known(s)
  {
    match a
    case Take(_, _) => true
    case Discard(gone) => gone <= s.places.owed
    case Connect(id, _) => id !in s.leases
    case Count(id, _, _) => id in s.places.leased
    case PutBack(id) => id in s.places.returning
  }

  /** The first `k` idle connections go out of use, the next, if any, is leased. */
  ghost function TakePlaces(p: Places, k: nat): Places
    requires k <= |p.idle|
  {
    p.(idle := if k < |p.idle| then p.idle[k + 1..] else [],
       leased := if k < |p.idle| then p.leased + {p.idle[k]} else p.leased,
       owed := p.owed + SetOf(p.idle[..k]))
  }

  ghost function TakeFirst(s: State, k: nat): State
    requires Known(s) && k <= |s.places.idle|
  {
    var s' := s.(places := TakePlaces(s.places, k));
    if k == |s.places.idle| then s'
    else
      var c := s.places.idle[k];
      s'.(leases := s.leases[c := s.leases[c] + 1])
  }

  ghost function Next(l: Limits, s: State, a: Action): State
    requires Known(s) && Enabled(s, a)
  {
    var p := s.places;
    match a
    case Take(now, up) => TakeFirst(s, Unusable(l, s.conns, p.idle, now, up))
    case Discard(gone) => s.(places := p.(owed := p.owed - gone), total := s.total - |gone|)
    case Connect(id, now) =>
      State(p.(leased := p.leased + {id}), s.total + 1, s.conns[id := Conn(now, 0)], s.leases[id := 1])
    case Count(id, now, up) =>
      var c := s.conns[id].(request := s.conns[id].request + 1);
      var s' := s.(conns := s.conns[id := c]);
      if Fit(l, c, id in up, now) then s'.(places := p.(leased := p.leased - {id}, returning := p.returning + {id}))
      else s'.(places := p.(leased := p.leased - {id}, owed := p.owed + {id}))
    case PutBack(id) => s.(places := p.(idle := p.idle + [id], returning := p.returning - {id}))
  }

  // ---------------------------------------------------------------- the invariant

  ghost predicate Apart(p: Places) {
    && Distinct(p.idle)
    && (forall c <- p.idle :: c !in p.leased && c !in p.returning && c !in p.owed)
    && p.leased !! p.returning && p.leased !! p.owed && p.returning !! p.owed
  }

  ghost function Size(p: Places): nat { |p.idle| + |p.leased| + |p.returning| + |p.owed| }

  function MostLeases(l: Limits): nat { if l.maxRequest == 0 then 1 else l.maxRequest }

  /** A connection that waits: its leases are over, and there is room for one more. */
  ghost predicate Waits(l: Limits, s: State, c: nat) {
    c in s.conns && c in s.leases && s.leases[c] == s.conns[c].request < l.maxRequest
  }

  ghost predicate Serves(s: State, c: nat) {
    c in s.conns && c in s.leases && s.leases[c] == s.conns[c].request + 1
  }

  ghost predicate Counts(l: Limits, s: State) {
    && (forall c <- s.places.idle :: Waits(l, s, c))
    && (forall c <- s.places.returning :: Waits(l, s, c))
    && (forall c <- s.places.leased :: Serves(s, c))
    && s.places.owed <= s.leases.Keys
    && (forall c <- s.leases :: s.leases[c] <= MostLeases(l))
  }

  ghost predicate Inv(l: Limits, s: State) {
    Apart(s.places) && Counts(l, s) && s.total == Size(s.places)
  }

  lemma InvKnown(l: Limits, s: State)
    requires Counts(l, s)
    ensures Known(s)
  {
    assert forall c <- s.places.idle :: Waits(l, s, c);
    assert forall c <- s.places.returning :: Waits(l, s, c);
    assert forall c <- s.places.leased :: Serves(s, c);
  }

  lemma {:induction false} SetOfSize(cs: seq<nat>)
    requires Distinct(cs)
    ensures |SetOf(cs)| == |cs|
  {
    if cs != [] {
      SetOfSize(cs[1..]);
      assert SetOf(cs) == SetOf(cs[1..]) + {cs[0]};
    }
  }

  lemma SubsetSize(a: set<nat>, b: set<nat>)
    requires a <= b
    ensures |b - a| == |b| - |a|
  {
    assert b == a + (b - a);
  }

  lemma TakeApart(p: Places, k: nat)
    requires Apart(p) && k <= |p.idle|
    ensures Apart(TakePlaces(p, k)) && Distinct(p.idle[..k])
  {
    var p' := TakePlaces(p, k);
    assert forall c <- p.idle[..k] :: c in p.idle;
    if k < |p.idle| {
      var rest := p.idle[k + 1..];
      forall c | c in rest
        ensures c in p.idle && c != p.idle[k] && c !in p.idle[..k]
      {
        var i :| 0 <= i < |rest| && rest[i] == c;
        assert c == p.idle[k + 1 + i];
      }
      assert p.idle[k] !in p.idle[..k];
    }
  }

  lemma TakeSize(p: Places, k: nat)
    requires Apart(p) && k <= |p.idle|
    ensures Size(TakePlaces(p, k)) == Size(p)
  {
    TakeApart(p, k);
    SetOfSize(p.idle[..k]);
    assert SetOf(p.idle[..k]) !! p.owed by {
      assert forall c <- p.idle[..k] :: c in p.idle;
    }
  }

  lemma TakeCounts(l: Limits, s: State, k: nat)
    requires Apart(s.places) && Counts(l, s) && Known(s) && k <= |s.places.idle|
    ensures Counts(l, TakeFirst(s, k))
  {
    var p, s' := s.places, TakeFirst(s, k);
    TakeApart(p, k);
    assert forall c <- p.idle[..k] :: c in p.idle;
    if k < |p.idle| {
      var d := p.idle[k];
      assert Waits(l, s, d);
      forall c | c in s'.places.idle ensures Waits(l, s', c) { assert c in p.idle && c != d; assert Waits(l, s, c); }
      forall c | c in s'.places.returning ensures Waits(l, s', c) { assert c != d; assert Waits(l, s, c); }
      forall c | c in s'.places.leased ensures Serves(s', c) { assert c != d ==> Serves(s, c); }
    } else {
      forall c | c in s'.places.returning ensures Waits(l, s', c) { assert Waits(l, s, c); }
      forall c | c in s'.places.leased ensures Serves(s', c) { assert Serves(s, c); }
    }
  }

  lemma DiscardInv(l: Limits, s: State, gone: set<nat>)
    requires Inv(l, s) && Known(s) && gone <= s.places.owed
    ensures Inv(l, Next(l, s, Discard(gone)))
  {
    var s' := Next(l, s, Discard(gone));
    SubsetSize(gone, s.places.owed);
    forall c | c in s'.places.idle ensures Waits(l, s', c) { assert Waits(l, s, c); }
    forall c | c in s'.places.returning ensures Waits(l, s', c) { assert Waits(l, s, c); }
    forall c | c in s'.places.leased ensures Serves(s', c) { assert Serves(s, c); }
  }

  lemma ConnectInv(l: Limits, s: State, id: nat, now: nat)
    requires Inv(l, s) && Known(s) && id !in s.leases
    ensures Inv(l, Next(l, s, Connect(id, now)))
  {
    var s' := Next(l, s, Connect(id, now));
    forall c | c in s'.places.idle ensures Waits(l, s', c) { assert Waits(l, s, c); }
    forall c | c in s'.places.returning ensures Waits(l, s', c) { assert Waits(l, s, c); }
    forall c | c in s'.places.leased ensures Serves(s', c) { assert c != id ==> Serves(s, c); }
  }

  lemma CountInv(l: Limits, s: State, id: nat, now: nat, up: set<nat>)
    requires Inv(l, s) && Known(s) && id in s.places.leased
    ensures Inv(l, Next(l, s, Count(id, now, up)))
  {
    hide Apart, Size, Fit;
    var s' := Next(l, s, Count(id, now, up));
    CountApart(s.places, id);
    assert Serves(s, id);
    forall c | c in s'.places.idle ensures Waits(l, s', c) { assert Waits(l, s, c); }
    forall c | c in s'.places.returning ensures Waits(l, s', c) {
      if c == id {
        FitMeans(l, s'.conns[id], id in up, now);
      } else {
        assert Waits(l, s, c);
      }
    }
    forall c | c in s'.places.leased ensures Serves(s', c) { assert Serves(s, c); }
  }

  lemma FitMeans(l: Limits, c: Conn, isUp: bool, now: nat)
    ensures Fit(l, c, isUp, now) ==> c.request < l.maxRequest
  {
  }

  /** A leased connection moves on. */
  lemma CountApart(p: Places, id: nat)
    requires Apart(p) && id in p.leased
    ensures id !in p.idle && id !in p.returning && id !in p.owed
    ensures var p' := p.(leased := p.leased - {id}, returning := p.returning + {id}); Apart(p') && Size(p') == Size(p)
    ensures var p' := p.(leased := p.leased - {id}, owed := p.owed + {id}); Apart(p') && Size(p') == Size(p)
  {
    assert |p.leased - {id}| == |p.leased| - 1;
  }

  lemma PutBackInv(l: Limits, s: State, id: nat)
    requires Inv(l, s) && Known(s) && id in s.places.returning
    ensures Inv(l, Next(l, s, PutBack(id)))
  {
    var s' := Next(l, s, PutBack(id));
    forall c | c in s'.places.idle ensures Waits(l, s', c) {
      assert c != id ==> c in s.places.idle;
      assert Waits(l, s, c);
    }
    forall c | c in s'.places.returning ensures Waits(l, s', c) { assert Waits(l, s, c); }
    forall c | c in s'.places.leased ensures Serves(s', c) { assert Serves(s, c); }
  }

  /** Every action keeps the books. */
  lemma StepInv(l: Limits, s: State, a: Action)
    requires Inv(l, s) && Known(s) && Enabled(s, a)
    ensures Inv(l, Next(l, s, a))
  {
    match a
    case Take(now, up) =>
      var k := Unusable(l, s.conns, s.places.idle, now, up);
      TakeApart(s.places, k);
      TakeSize(s.places, k);
      TakeCounts(l, s, k);
    case Discard(gone) => DiscardInv(l, s, gone);
    case Connect(id, now) => ConnectInv(l, s, id, now);
    case Count(id, now, up) => CountInv(l, s, id, now, up);
    case PutBack(id) => PutBackInv(l, s, id);
  }

  // --------------------------------------------------------------- whole runs

  const Start := State(Places([], {}, {}, {}), 0, map[], map[])

  /** One state after another, by actions of any threads in any order. */
  ghost predicate Run(l: Limits, ss: seq<State>, acts: seq<Action>) {
    && |ss| == |acts| + 1 && ss[0] == Start
    && forall i :: 0 <= i < |acts| ==> IsStep(l, ss[i], acts[i], ss[i + 1])
  }

  /** The actions look up only connections that are known; every reachable state has
      that property. */
  ghost predicate IsStep(l: Limits, s: State, a: Action, s': State) {
    Known(s) ==> Enabled(s, a) && s' == Next(l, s, a)
  }

  lemma {:induction false} RunInv(l: Limits, ss: seq<State>, acts: seq<Action>, i: nat)
    requires Run(l, ss, acts) && i < |ss|
    ensures Inv(l, ss[i]) && Known(ss[i])
  {
    if i > 0 {
      RunInv(l, ss, acts, i - 1);
      assert IsStep(l, ss[i - 1], acts[i - 1], ss[i]);
      StepInv(l, ss[i - 1], acts[i - 1]);
    }
    InvKnown(l, ss[i]);
  }

  /** In every reachable state: the total is the number of connections not yet
      subtracted; outside the two operations it is those idle plus those leased; none
      is idle and leased, or idle twice; idle ones have served fewer leases than the
      limit, and none ever serves more. */
  lemma BooksBalance(l: Limits, ss: seq<State>, acts: seq<Action>, i: nat)
    requires Run(l, ss, acts) && i < |ss|
    ensures var p := ss[i].places;
            && ss[i].total == |p.idle| + |p.leased| + |p.returning| + |p.owed|
            && (p.returning == {} && p.owed == {} ==> ss[i].total == |p.idle| + |p.leased|)
            && (forall c <- p.idle :: c !in p.leased) && Distinct(p.idle)
            && (forall c <- p.idle :: c in ss[i].leases && ss[i].leases[c] < l.maxRequest)
            && (forall c <- ss[i].leases :: ss[i].leases[c] <= (if l.maxRequest == 0 then 1 else l.maxRequest))
  {
    RunInv(l, ss, acts, i);
    assert forall c <- ss[i].places.idle :: Waits(l, ss[i], c);
  }

  /** A connection is leased only from the list or when new: never while it is leased. */
  lemma NeverLeasedTwice(l: Limits, ss: seq<State>, acts: seq<Action>, i: nat, c: nat)
    requires Run(l, ss, acts) && i < |acts| && c in ss[i].places.leased
    ensures c in ss[i + 1].leases && c in ss[i].leases && ss[i + 1].leases[c] == ss[i].leases[c]
  {
    RunInv(l, ss, acts, i);
    assert IsStep(l, ss[i], acts[i], ss[i + 1]);
    assert Serves(ss[i], c);
  }

  /** In every run, a connection that a search leases is connected and not too old, and each
      one it takes out of use is not connected or too old. */
  lemma SearchTakesUsable(l: Limits, ss: seq<State>, acts: seq<Action>, n: nat, c: nat)
    requires Run(l, ss, acts) && n < |acts| && acts[n].Take? && c in ss[n].places.idle
    ensures c in ss[n].conns
    ensures c in ss[n + 1].places.leased ==>
              c in acts[n].up && ss[n].conns[c].created + l.maxAlive >= acts[n].now
    ensures c in ss[n + 1].places.owed ==>
              c !in acts[n].up || ss[n].conns[c].created + l.maxAlive < acts[n].now
    ensures c in ss[n + 1].places.leased || c in ss[n + 1].places.owed || c in ss[n + 1].places.idle
  {
    RunInv(l, ss, acts, n);
    assert IsStep(l, ss[n], acts[n], ss[n + 1]);
    var p := ss[n].places;
    var k := Unusable(l, ss[n].conns, p.idle, acts[n].now, acts[n].up);
    TakeApart(p, k);
    var i :| 0 <= i < |p.idle| && p.idle[i] == c;
    WhereTaken(p, k, i);
  }

  lemma WhereTaken(p: Places, k: nat, i: nat)
    requires Apart(p) && k <= |p.idle| && i < |p.idle|
    ensures var c, p' := p.idle[i], TakePlaces(p, k);
            && (c in p'.owed <==> i < k) && (c in p'.leased <==> i == k) && (c in p'.idle <==> i > k)
  {
    var c := p.idle[i];
    if i < k {
      assert p.idle[..k][i] == c;
    } else if i > k {
      assert p.idle[k + 1..][i - k - 1] == c;
    }
  }

  // --------------------------------------------------------------- the operations

  /** The pool's fields, and the ghost ones that say who holds what. */
  class Pool {
    const limits: Limits
    var idle: seq<nat>
    var total: int
    var conns: map<nat, Conn>
    ghost var leased: set<nat>
    ghost var returning: set<nat>
    ghost var owed: set<nat>
    ghost var leases: map<nat, nat>

    ghost function Abs(): State
      reads this
    {
      State(Places(idle, leased, returning, owed), total, conns, leases)
    }

    ghost predicate Valid()
      reads this
    {
      Inv(limits, Abs()) && Known(Abs())
    }

    constructor (maxAlive: nat, maxRequest: nat)
      ensures Valid() && Abs() == Start && limits == Limits(maxAlive, maxRequest)
    {
      limits := Limits(maxAlive, maxRequest);
      idle, total, conns := [], 0, map[];
      leased, returning, owed, leases := {}, {}, {}, map[];
    }

    /** The search loop: pop until a usable connection turns up. */
    method PopUsable(now: nat, up: set<nat>, ghost k: nat) returns (ptr: Option<nat>, invalid: seq<nat>)
      requires (forall c <- idle :: c in conns) && k == Unusable(limits, conns, idle, now, up)
      modifies this`idle
      ensures invalid == old(idle)[..k]
      ensures if k == |old(idle)| then ptr == None && idle == []
              else ptr == Some(old(idle)[k]) && idle == old(idle)[k + 1..]
      ensures ptr.Some? ==> ptr.value in up && conns[ptr.value].created + limits.maxAlive >= now
      ensures forall c <- invalid :: c !in up || conns[c].created + limits.maxAlive < now
    {
      ptr, invalid := None, [];
      while idle != []
        invariant |invalid| <= k && invalid == old(idle)[..|invalid|] && idle == old(idle)[|invalid|..] && ptr == None
        decreases |idle|
      {
        var c := idle[0];
        idle := idle[1..];
        if Usable(limits, conns[c], c in up, now) {
          ptr := Some(c);
          break;
        }
        invalid := invalid + [c];
      }
    }

    /** Under the lock: the first usable connection is leased, the ones before it go out
        of use, the ones after it stay. */
    method TakeIdle(now: nat, up: set<nat>) returns (ptr: Option<nat>, invalid: seq<nat>)
      requires Valid()
      modifies this`idle, this`leased, this`owed, this`leases
      ensures Valid() && Abs() == Next(limits, old(Abs()), Take(now, up))
      ensures var k := Unusable(limits, conns, old(idle), now, up);
              && invalid == old(idle)[..k] && Distinct(invalid) && owed == old(owed) + SetOf(invalid)
              && SetOf(invalid) !! old(owed)
              && ptr == (if k == |old(idle)| then None else Some(old(idle)[k]))
              && idle == (if k == |old(idle)| then [] else old(idle)[k + 1..])
      ensures ptr.Some? ==> ptr.value in up && ptr.value in conns && conns[ptr.value].created + limits.maxAlive >= now
      ensures forall c <- invalid :: c in conns && (c !in up || conns[c].created + limits.maxAlive < now)
      ensures if ptr.None? then idle == [] && leased == old(leased) && leases == old(leases)
              else leased == old(leased) + {ptr.value}
    {
      hide Inv, Apart, Counts, Known, Unusable;
      ghost var s := Abs();
      ghost var k := TakeFacts(limits, s, now, up);
      ptr, invalid := PopUsable(now, up, k);
      owed := owed + SetOf(invalid);
      if ptr.Some? {
        leased := leased + {ptr.value};
        leases := leases[ptr.value := leases[ptr.value] + 1];
      }
      assert Abs() == TakeFirst(s, k);
    }

    /** The unusable ones are deleted and subtracted. */
    method DiscardAll(gone: seq<nat>)
      requires Valid() && Distinct(gone) && SetOf(gone) <= owed
      modifies this`total, this`owed
      ensures Valid() && Abs() == Next(limits, old(Abs()), Discard(SetOf(gone)))
      ensures owed == old(owed) - SetOf(gone) && total == old(total) - |gone|
    {
      SetOfSize(gone);
      StepInv(limits, Abs(), Discard(SetOf(gone)));
      InvKnown(limits, Next(limits, Abs(), Discard(SetOf(gone))));
      total := total - |gone|;
      owed := owed - SetOf(gone);
    }

    /** A new connection under the unused name `id`. */
    method ConnectNew(id: nat, now: nat)
      requires Valid() && id !in leases
      modifies this`total, this`conns, this`leased, this`leases
      ensures Valid() && Abs() == Next(limits, old(Abs()), Connect(id, now))
      ensures leased == old(leased) + {id} && total == old(total) + 1 && conns == old(conns)[id := Conn(now, 0)]
    {
      hide Inv, Known;
      ConnectFacts(limits, Abs(), id, now);
      conns := conns[id := Conn(now, 0)];
      total := total + 1;
      leased, leases := leased + {id}, leases[id := 1];
    }

    /** The caller's last reference is gone: the request is counted, and the connection
        goes out of use or on its way back. */
    method CountRequest(id: nat, now: nat, up: set<nat>) returns (dead: bool)
      requires Valid() && id in leased
      modifies this`conns, this`leased, this`returning, this`owed
      ensures Valid() && Abs() == Next(limits, old(Abs()), Count(id, now, up))
      ensures id in conns && conns[id] == old(conns[id].(request := conns[id].request + 1))
      ensures dead <==> !Fit(limits, conns[id], id in up, now)
      ensures dead <==>
              id !in up || conns[id].created + limits.maxAlive <= now || conns[id].request >= limits.maxRequest
      ensures id in old(conns) && id !in old(owed) && id !in old(returning) && leased == old(leased) - {id}
      ensures if dead then owed == old(owed) + {id} && returning == old(returning)
              else owed == old(owed) && returning == old(returning) + {id}
    {
      hide Inv, Known, Apart, Counts;
      CountFacts(limits, Abs(), id, now, up);
      var c := conns[id].(request := conns[id].request + 1);
      conns := conns[id := c];
      dead := !(id in up) || c.created + limits.maxAlive <= now || c.request >= limits.maxRequest;
      leased := leased - {id};
      if dead {
        owed := owed + {id};
      } else {
        returning := returning + {id};
      }
    }

    /** Under the lock: back into the list. */
    method PushBack(id: nat)
      requires Valid() && id in returning
      modifies this`idle, this`returning
      ensures Valid() && Abs() == Next(limits, old(Abs()), PutBack(id))
      ensures idle == old(idle) + [id] && returning == old(returning) - {id}
    {
      StepInv(limits, Abs(), PutBack(id));
      InvKnown(limits, Next(limits, Abs(), PutBack(id)));
      idle := idle + [id];
      returning := returning - {id};
    }

    /** `get_connection` when no other thread intervenes: the first usable idle
        connection, with the unusable ones before it gone; else a new one under the
        name `id`; else nothing, if the peer cannot be reached. */
    method GetConnection(now: nat, later: nat, up: set<nat>, reachable: bool, id: nat) returns (ptr: Option<nat>)
      requires Valid() && id !in leases
      modifies this
      ensures Valid() && owed == old(owed) && returning == old(returning)
      ensures var k := Unusable(limits, old(conns), old(idle), now, up);
              if k < |old(idle)| then ptr == Some(old(idle)[k]) && idle == old(idle)[k + 1..] && total == old(total) - k
              else idle == [] && ptr == (if reachable then Some(id) else None)
                   && total == old(total) - k + (if reachable then 1 else 0)
      ensures leased == old(leased) + (if ptr.None? then {} else {ptr.value})
      ensures ptr.Some? && ptr.value in old(idle) ==>
                ptr.value in up && ptr.value in old(conns) && old(conns)[ptr.value].created + limits.maxAlive >= now
      ensures forall i :: 0 <= i < |old(idle)| - |idle| && ptr != Some(old(idle)[i]) ==>
                var c := old(idle)[i];
                c in old(conns) && (c !in up || old(conns)[c].created + limits.maxAlive < now)
    {
      hide Inv, Unusable, Known, Next;
      KnownIdle(Abs());
      var invalid: seq<nat>;
      ptr, invalid := TakeIdle(now, up);
      assert forall i :: 0 <= i < |invalid| ==> old(idle)[i] == invalid[i];
      DiscardAll(invalid);
      if ptr.None? && reachable {
        ConnectNew(id, later);
        ptr := Some(id);
      }
    }

    /** `ReleasePtr` when no other thread intervenes: deleted if disconnected, too old or
        used up, else at the end of the list. */
    method ReleasePtr(id: nat, now: nat, up: set<nat>)
      requires Valid() && id in leased
      modifies this
      ensures Valid() && owed == old(owed) && returning == old(returning) && leased == old(leased) - {id}
      ensures id in conns && conns[id].request == old(conns[id].request) + 1
      ensures var c := conns[id];
              if id in up && c.created + limits.maxAlive > now && c.request < limits.maxRequest
              then idle == old(idle) + [id] && total == old(total)
              else idle == old(idle) && total == old(total) - 1
      ensures id in old(conns) && conns[id].created == old(conns)[id].created
    {
      hide Inv, Known, Next, Fit;
      var dead := CountRequest(id, now, up);
      if dead {
        assert SetOf([id]) == {id};
        DiscardAll([id]);
      } else {
        PushBack(id);
      }
    }
  }

  lemma KnownIdle(s: State)
    requires Known(s)
    ensures forall c <- s.places.idle :: c in s.conns && c in s.leases
  {
  }

  lemma TakeFacts(l: Limits, s: State, now: nat, up: set<nat>) returns (k: nat)
    requires Inv(l, s) && Known(s)
    ensures forall c <- s.places.idle :: c in s.conns
    ensures k == Unusable(l, s.conns, s.places.idle, now, up) && k <= |s.places.idle|
    ensures k < |s.places.idle| ==> s.places.idle[k] in s.leases
    ensures Distinct(s.places.idle[..k]) && SetOf(s.places.idle[..k]) !! s.places.owed
    ensures Inv(l, TakeFirst(s, k)) && Known(TakeFirst(s, k))
  {
    k := Unusable(l, s.conns, s.places.idle, now, up);
    TakeApart(s.places, k);
    assert forall c <- s.places.idle[..k] :: c in s.places.idle;
    StepInv(l, s, Take(now, up));
    InvKnown(l, TakeFirst(s, k));
  }

  lemma ConnectFacts(l: Limits, s: State, id: nat, now: nat)
    requires Inv(l, s) && Known(s) && id !in s.leases
    ensures var s' := Next(l, s, Connect(id, now)); Inv(l, s') && Known(s')
  {
    StepInv(l, s, Connect(id, now));
    InvKnown(l, Next(l, s, Connect(id, now)));
  }

  lemma CountFacts(l: Limits, s: State, id: nat, now: nat, up: set<nat>)
    requires Inv(l, s) && Known(s) && id in s.places.leased
    ensures id in s.conns && id !in s.places.owed && id !in s.places.returning
    ensures var s' := Next(l, s, Count(id, now, up)); Inv(l, s') && Known(s')
  {
    StepInv(l, s, Count(id, now, up));
    InvKnown(l, Next(l, s, Count(id, now, up)));
  }
}
