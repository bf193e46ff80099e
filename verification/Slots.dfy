/** The tiered slot limiter: pools acquired in a fixed order and released in the reverse one. */
module Slots {
  import opened Wrappers

  datatype Class = Probe | Decode | Encode

  datatype Pool = Global | Large | Tier(kind: Class)

  datatype Config = Config(maxProbe: int, maxDecode: int, maxEncode: int, globalMax: int, maxLargeFile: Option<int>)

  /** Unset limits take their defaults; an explicit zero for large files stays. */
  function WithDefaults(c: Config): Config {
    Config(if c.maxProbe <= 0 then 16 else c.maxProbe,
           if c.maxDecode <= 0 then 4 else c.maxDecode,
           if c.maxEncode <= 0 then 2 else c.maxEncode,
           c.globalMax,
           if c.maxLargeFile == None then Some(2) else c.maxLargeFile)
  }

  /** The capacity of a pool; zero when the pool is switched off. */
  function Capacity(c: Config, p: Pool): nat {
    var d := WithDefaults(c);
    match p
    case Global => if d.globalMax > 0 then d.globalMax else 0
    case Large => if d.maxLargeFile.value > 0 then d.maxLargeFile.value else 0
    case Tier(Probe) => d.maxProbe
    case Tier(Decode) => d.maxDecode
    case Tier(Encode) => d.maxEncode
  }

  predicate On(c: Config, p: Pool) {
    Capacity(c, p) > 0
  }

  /** Probes never take a large-file slot. */
  predicate TakesLarge(c: Config, kind: Class, largeFile: bool) {
    On(c, Large) && kind != Probe && largeFile
  }

  /** The pools a lease takes, in order. */
  function Route(c: Config, kind: Class, largeFile: bool): (r: seq<Pool>)
    ensures r != [] && forall p <- r :: On(c, p)
  {
    (if On(c, Global) then [Global] else [])
    + (if TakesLarge(c, kind, largeFile) then [Large] else [])
    + [Tier(kind)]
  }

  /** How many slots each pool has: what is configured, or by default 16 probes, 4 decodes, 2 encodes and 2 large files. */
  lemma CapacityIs(c: Config)
    ensures Capacity(c, Tier(Probe)) == if c.maxProbe > 0 then c.maxProbe else 16
    ensures Capacity(c, Tier(Decode)) == if c.maxDecode > 0 then c.maxDecode else 4
    ensures Capacity(c, Tier(Encode)) == if c.maxEncode > 0 then c.maxEncode else 2
    ensures Capacity(c, Global) == if c.globalMax > 0 then c.globalMax else 0
    ensures Capacity(c, Large) == if c.maxLargeFile == None then 2 else if c.maxLargeFile.value > 0 then c.maxLargeFile.value else 0
  {}

  /**
    * Which pools a lease takes: its own tier and no other one, the global pool when there is a cap, and the large-file pool
    * for a large file that is not just probed, unless that pool is switched off.
    */
  lemma RouteIff(c: Config, kind: Class, largeFile: bool)
    ensures var r := Route(c, kind, largeFile);
      && (forall k :: Tier(k) in r <==> k == kind)
      && (Global in r <==> c.globalMax > 0)
      && (Large in r <==> largeFile && kind != Probe && (c.maxLargeFile == None || c.maxLargeFile.value > 0))
  {
    CapacityIs(c);
  }

  function Rank(p: Pool): nat {
    match p case Global => 0 case Large => 1 case Tier(_) => 2
  }

  /** The fixed order: along a route the rank strictly grows. */
  lemma RouteIsOrdered(c: Config, kind: Class, largeFile: bool, i: nat, j: nat)
    requires i < j < |Route(c, kind, largeFile)|
    ensures Rank(Route(c, kind, largeFile)[i]) < Rank(Route(c, kind, largeFile)[j])
  {}

  // ---- channel occupancy

  datatype Counts = Counts(global: nat, large: nat, probe: nat, decode: nat, encode: nat, misreleases: nat) {
    function Of(p: Pool): nat {
      match p
      case Global => global
      case Large => large
      case Tier(Probe) => probe
      case Tier(Decode) => decode
      case Tier(Encode) => encode
    }

    function With(p: Pool, n: nat): (r: Counts)
      ensures r.Of(p) == n && r.misreleases == misreleases
      ensures forall q :: q != p ==> r.Of(q) == Of(q)
    {
      match p
      case Global => this.(global := n)
      case Large => this.(large := n)
      case Tier(Probe) => this.(probe := n)
      case Tier(Decode) => this.(decode := n)
      case Tier(Encode) => this.(encode := n)
    }
  }

  const EMPTY := Counts(0, 0, 0, 0, 0, 0)

  function Take(s: Counts, p: Pool): Counts {
    s.With(p, s.Of(p) + 1)
  }

  /** Gives one slot back; counts a misrelease when none is held. */
  function Put(s: Counts, p: Pool): Counts {
    if s.Of(p) > 0 then s.With(p, s.Of(p) - 1) else s.(misreleases := s.misreleases + 1)
  }

  function TakeAll(s: Counts, pools: seq<Pool>): Counts {
    if pools == [] then s else Take(TakeAll(s, pools[..|pools| - 1]), pools[|pools| - 1])
  }

  /** Gives the listed slots back, last first. */
  function PutAll(s: Counts, pools: seq<Pool>): Counts
    decreases |pools|
  {
    if pools == [] then s else PutAll(Put(s, pools[|pools| - 1]), pools[..|pools| - 1])
  }

  lemma PutLast(s: Counts, pools: seq<Pool>, p: Pool)
    ensures PutAll(s, pools + [p]) == PutAll(Put(s, p), pools)
  {
    assert (pools + [p])[..|pools|] == pools;
  }

  /** The slots a lease's three flags stand for, in the order they are taken. */
  function HeldSlots(kind: Class, global: bool, large: bool, tier: bool): seq<Pool> {
    (if global then [Global] else []) + (if large then [Large] else []) + (if tier then [Tier(kind)] else [])
  }

  function PutIf(held: bool, s: Counts, p: Pool): Counts {
    if held then Put(s, p) else s
  }

  lemma PutMaybe(held: bool, s: Counts, pools: seq<Pool>, p: Pool)
    ensures PutAll(s, pools + (if held then [p] else [])) == PutAll(PutIf(held, s, p), pools)
  {
    if held {
      PutLast(s, pools, p);
    } else {
      assert pools + [] == pools;
    }
  }

  lemma PutEach(s: Counts, kind: Class, global: bool, large: bool, tier: bool)
    ensures PutIf(global, PutIf(large, PutIf(tier, s, Tier(kind)), Large), Global)
         == PutAll(s, HeldSlots(kind, global, large, tier))
  {
    var first: seq<Pool> := if global then [Global] else [];
    var upper := first + (if large then [Large] else []);
    PutMaybe(tier, s, upper, Tier(kind));
    PutMaybe(large, PutIf(tier, s, Tier(kind)), first, Large);
    PutMaybe(global, PutIf(large, PutIf(tier, s, Tier(kind)), Large), [], Global);
    assert [] + first == first;
  }

  lemma SameCounts(a: Counts, b: Counts)
    requires a.misreleases == b.misreleases && forall p :: a.Of(p) == b.Of(p)
    ensures a == b
  {
    assert a.Of(Global) == b.Of(Global) && a.Of(Large) == b.Of(Large);
    assert a.Of(Tier(Probe)) == b.Of(Tier(Probe)) && a.Of(Tier(Decode)) == b.Of(Tier(Decode));
    assert a.Of(Tier(Encode)) == b.Of(Tier(Encode));
  }

  /** Giving a slot back takes one from a channel that holds any, and is counted once as a misrelease on one that holds none. */
  lemma PutIs(s: Counts, p: Pool)
    ensures s.Of(p) > 0 ==> Put(s, p).Of(p) == s.Of(p) - 1 && Put(s, p).misreleases == s.misreleases
    ensures s.Of(p) == 0 ==> Put(s, p).Of(p) == 0 && Put(s, p).misreleases == s.misreleases + 1
    ensures forall q :: q != p ==> Put(s, p).Of(q) == s.Of(q)
  {}

  lemma PutUndoesTake(s: Counts, p: Pool)
    ensures Put(Take(s, p), p) == s
  {
    SameCounts(Put(Take(s, p), p), s);
  }

  /** Giving back in reverse restores every channel and counts no misrelease. */
  lemma {:induction false} ReleaseUndoesAcquire(s: Counts, pools: seq<Pool>)
    ensures PutAll(TakeAll(s, pools), pools) == s
  {
    if pools != [] {
      PutUndoesTake(TakeAll(s, pools[..|pools| - 1]), pools[|pools| - 1]);
      ReleaseUndoesAcquire(s, pools[..|pools| - 1]);
    }
  }

  /**
    * How the wait of one channel send ends: with room in the channel or with its context cancelled, and what the
    * channels hold by then, other clients having taken and given back in the meantime.
    */
  datatype Wake = Room(now: Counts) | Cancelled(now: Counts)

  /** A send goes through only into a channel with room. */
  ghost predicate Ready(c: Config, pools: seq<Pool>, wake: Pool -> Wake) {
    forall p <- pools :: wake(p).Room? ==> wake(p).now.Of(p) < Capacity(c, p)
  }

  /** The number of sends that go through before the first that is cancelled. */
  function Granted(pools: seq<Pool>, wake: Pool -> Wake): (n: nat)
    ensures n <= |pools|
    ensures forall i :: 0 <= i < n ==> wake(pools[i]).Room?
    ensures n < |pools| ==> wake(pools[n]).Cancelled?
  {
    if pools == [] || wake(pools[0]).Cancelled? then 0 else 1 + Granted(pools[1..], wake)
  }

  ghost predicate AllGranted(pools: seq<Pool>, wake: Pool -> Wake) {
    forall p <- pools :: wake(p).Room?
  }

  /** The channels hold the listed slots of one client on top of those of the others. */
  predicate OnTopOf(now: Counts, others: Counts, mine: seq<Pool>) {
    now == TakeAll(others, mine)
  }

  /** After a cancelled send the slots taken are given back, which leaves the channels to the other clients. */
  ghost predicate GivenBack(pools: seq<Pool>, wake: Pool -> Wake, s: Counts) {
    var n := Granted(pools, wake);
    && n < |pools|
    && s == PutAll(wake(pools[n]).now, pools[..n])
    && forall others :: OnTopOf(wake(pools[n]).now, others, pools[..n]) ==> s == others
  }

  lemma LeavesOthers(now: Counts, mine: seq<Pool>)
    ensures forall others :: OnTopOf(now, others, mine) ==> PutAll(now, mine) == others
  {
    forall others | OnTopOf(now, others, mine)
      ensures PutAll(now, mine) == others
    {
      ReleaseUndoesAcquire(others, mine);
    }
  }

  /** The sends before p go through, and that of p is cancelled. */
  lemma StopsAt(pools: seq<Pool>, wake: Pool -> Wake, held: seq<Pool>, p: Pool)
    requires held + [p] <= pools && wake(p).Cancelled? && forall q <- held :: wake(q).Room?
    ensures GivenBack(pools, wake, PutAll(wake(p).now, held)) && !AllGranted(pools, wake)
  {
    assert pools[..|held|] == held && pools[|held|] == (held + [p])[|held|];
    assert forall i :: 0 <= i < |held| ==> pools[i] == held[i];
    LeavesOthers(wake(p).now, held);
  }

  /** The same for a lease, by its flags: it holds Global if on, and the large-file slot unless that is the one cancelled. */
  lemma LeaseStopsAt(c: Config, kind: Class, largeFile: bool, wake: Pool -> Wake, large: bool, p: Pool)
    requires wake(p).Cancelled? && (On(c, Global) ==> wake(Global).Room?) && (large ==> wake(Large).Room?)
    requires if p == Large then TakesLarge(c, kind, largeFile) && !large
             else p == Tier(kind) && large == TakesLarge(c, kind, largeFile)
    ensures GivenBack(Route(c, kind, largeFile), wake, PutAll(wake(p).now, HeldSlots(kind, On(c, Global), large, false)))
    ensures !AllGranted(Route(c, kind, largeFile), wake)
  {
    StopsAt(Route(c, kind, largeFile), wake, HeldSlots(kind, On(c, Global), large, false), p);
  }

  // ---- the objects

  class Limiter {
    const cfg: Config
    var global: nat
    var large: nat
    var probe: nat
    var decode: nat
    var encode: nat
    var misreleases: nat

    constructor (cfg: Config)
      ensures this.cfg == cfg && State() == EMPTY
    {
      this.cfg := cfg;
      global, large, probe, decode, encode, misreleases := 0, 0, 0, 0, 0, 0;
    }

    function State(): Counts
      reads this
    {
      Counts(global, large, probe, decode, encode, misreleases)
    }

    /** Other clients act, until the channels hold the given counts. */
    method Pass(now: Counts)
      modifies this
      ensures State() == now
    {
      global, large, probe, decode, encode, misreleases :=
        now.global, now.large, now.probe, now.decode, now.encode, now.misreleases;
    }

    /** acquireChan: waits for room or for the end of the context. */
    method AcquireChan(p: Pool, wake: Wake) returns (ok: bool)
      requires wake.Room? ==> wake.now.Of(p) < Capacity(cfg, p)
      modifies this
      ensures ok == wake.Room? && State() == if ok then Take(wake.now, p) else wake.now
    {
      Pass(wake.now);
      ok := wake.Room?;
      if !ok {
        return;
      }
      match p
      case Global => global := global + 1;
      case Large => large := large + 1;
      case Tier(Probe) => probe := probe + 1;
      case Tier(Decode) => decode := decode + 1;
      case Tier(Encode) => encode := encode + 1;
    }

    method TryReleaseChan(p: Pool) returns (ok: bool)
      modifies this
      ensures ok == (old(State()).Of(p) > 0)
      ensures State() == if ok then old(State()).With(p, old(State()).Of(p) - 1) else old(State())
    {
      ok := State().Of(p) > 0;
      if ok {
        match p
        case Global => global := global - 1;
        case Large => large := large - 1;
        case Tier(Probe) => probe := probe - 1;
        case Tier(Decode) => decode := decode - 1;
        case Tier(Encode) => encode := encode - 1;
      }
    }

    method ReleasePool(p: Pool)
      modifies this
      ensures State() == Put(old(State()), p)
    {
      var ok := TryReleaseChan(p);
      if !ok {
        misreleases := misreleases + 1;
      }
    }

    /** The send on the large-file channel, with the global slot held if there is one. */
    method TakeLarge(l: Lease, wake: Pool -> Wake) returns (ok: bool)
      requires l.limiter == this && !l.done && l.global == On(cfg, Global) && !l.large && !l.tier
      requires TakesLarge(cfg, l.kind, true) && (wake(Large).Room? ==> wake(Large).now.Of(Large) < Capacity(cfg, Large))
      requires On(cfg, Global) ==> wake(Global).Room?
      modifies this, l
      ensures ok == wake(Large).Room?
      ensures ok ==> l.global == On(cfg, Global) && l.large && !l.tier && !l.done
      ensures !ok ==> !AllGranted(Route(cfg, l.kind, true), wake) && GivenBack(Route(cfg, l.kind, true), wake, State())
    {
      ok := AcquireChan(Large, wake(Large));
      if ok {
        l.large := true;
      } else {
        LeaseStopsAt(cfg, l.kind, true, wake, false, Large);
        l.Release();
      }
    }

    /** The send on the channel of the class, with the slots above it held. */
    method TakeTier(l: Lease, largeFile: bool, wake: Pool -> Wake) returns (ok: bool)
      requires l.limiter == this && !l.done && l.global == On(cfg, Global) && !l.tier
      requires l.large == TakesLarge(cfg, l.kind, largeFile)
      requires Ready(cfg, [Tier(l.kind)], wake)
      requires (On(cfg, Global) ==> wake(Global).Room?) && (l.large ==> wake(Large).Room?)
      modifies this, l
      ensures ok == wake(Tier(l.kind)).Room?
      ensures ok ==> l.Held() == Route(cfg, l.kind, largeFile) && !l.done
      ensures ok ==> State() == Take(wake(Tier(l.kind)).now, Tier(l.kind))
      ensures !ok ==> !AllGranted(Route(cfg, l.kind, largeFile), wake)
      ensures !ok ==> GivenBack(Route(cfg, l.kind, largeFile), wake, State())
    {
      assert Tier(l.kind) in [Tier(l.kind)];
      ok := AcquireChan(Tier(l.kind), wake(Tier(l.kind)));
      if ok {
        l.tier := true;
      } else {
        LeaseStopsAt(cfg, l.kind, largeFile, wake, l.large, Tier(l.kind));
        l.Release();
      }
    }

    /** Either the lease holds its whole route, or what it took is given back and the channels are left to the others. */
    method AcquireLease(kind: Class, largeFile: bool, wake: Pool -> Wake) returns (lease: Option<Lease>)
      requires Ready(cfg, Route(cfg, kind, largeFile), wake)
      modifies this
      ensures lease.Some? <==> AllGranted(Route(cfg, kind, largeFile), wake)
      ensures lease.Some? ==>
                && fresh(lease.value) && lease.value.limiter == this && !lease.value.done
                && lease.value.Held() == Route(cfg, kind, largeFile)
                && State() == Take(wake(Tier(kind)).now, Tier(kind))
      ensures lease.None? ==> GivenBack(Route(cfg, kind, largeFile), wake, State())
    {
      var l := new Lease(this, kind);
      if On(cfg, Global) {
        var ok := AcquireChan(Global, wake(Global));
        if !ok {
          StopsAt(Route(cfg, kind, largeFile), wake, [], Global);
          return None;
        }
        l.global := true;
      }
      if TakesLarge(cfg, kind, largeFile) {
        var ok := TakeLarge(l, wake);
        if !ok {
          return None;
        }
      }
      var ok := TakeTier(l, largeFile, wake);
      return if ok then Some(l) else None;
    }

    /** The plain acquisition, without the large-file pool: all of its route or nothing. */
    method Acquire(kind: Class, wake: Pool -> Wake) returns (ok: bool)
      requires Ready(cfg, Route(cfg, kind, false), wake)
      modifies this
      ensures ok <==> AllGranted(Route(cfg, kind, false), wake)
      ensures ok ==> State() == Take(wake(Tier(kind)).now, Tier(kind))
      ensures !ok ==> GivenBack(Route(cfg, kind, false), wake, State())
    {
      ghost var route := Route(cfg, kind, false);
      ghost var held: seq<Pool> := [];
      if On(cfg, Global) {
        ok := AcquireChan(Global, wake(Global));
        if !ok {
          StopsAt(route, wake, [], Global);
          return;
        }
        held := [Global];
      }
      assert route == held + [Tier(kind)];
      ok := AcquireChan(Tier(kind), wake(Tier(kind)));
      if !ok {
        StopsAt(route, wake, held, Tier(kind));
        if On(cfg, Global) {
          PutLast(State(), [], Global);
          assert [] + [Global] == [Global];
          ReleasePool(Global);
        }
        return;
      }
    }

    /** Gives back what `Acquire` took for the same class. */
    method Release(kind: Class)
      modifies this
      ensures State() == PutAll(old(State()), Route(cfg, kind, false))
    {
      ghost var before := State();
      ReleasePool(Tier(kind));
      if On(cfg, Global) {
        PutLast(before, [Global], Tier(kind));
        PutLast(State(), [], Global);
        assert [] + [Global] == [Global];
        ReleasePool(Global);
      } else {
        PutLast(before, [], Tier(kind));
        assert [] + [Tier(kind)] == [Tier(kind)];
      }
    }

    /** Work under a lease, which ends with the channels at `after`: started or not, they are left to the others. */
    method RunUnderLease(kind: Class, largeFile: bool, wake: Pool -> Wake, after: Counts) returns (started: bool)
      requires Ready(cfg, Route(cfg, kind, largeFile), wake)
      modifies this
      ensures started <==> AllGranted(Route(cfg, kind, largeFile), wake)
      ensures var route := Route(cfg, kind, largeFile);
        if started then
          && State() == PutAll(after, route)
          && forall others :: OnTopOf(after, others, route) ==> State() == others
        else
          GivenBack(route, wake, State())
    {
      var lease := AcquireLease(kind, largeFile, wake);
      if lease == None {
        return false;
      }
      ghost var route := Route(cfg, kind, largeFile);
      Pass(after);
      LeavesOthers(after, route);
      lease.value.Release();
      return true;
    }
  }

  class Lease {
    const limiter: Limiter
    const kind: Class
    var large: bool
    var global: bool
    var tier: bool
    var done: bool

    constructor (limiter: Limiter, kind: Class)
      ensures this.limiter == limiter && this.kind == kind && Held() == [] && !done
    {
      this.limiter, this.kind := limiter, kind;
      large, global, tier, done := false, false, false, false;
    }

    /** The slots held, in the order they were taken. */
    function Held(): seq<Pool>
      reads this
    {
      HeldSlots(kind, global, large, tier)
    }

    method ReleaseOnce()
      modifies this, limiter
      ensures limiter.State() == PutAll(old(limiter.State()), old(Held()))
      ensures Held() == [] && done == old(done)
    {
      PutEach(limiter.State(), kind, global, large, tier);
      if tier {
        limiter.ReleasePool(Tier(kind));
        tier := false;
      }
      if large {
        limiter.ReleasePool(Large);
        large := false;
      }
      if global {
        limiter.ReleasePool(Global);
        global := false;
      }
    }

    /** The first release gives everything back; every later one changes nothing. */
    method Release()
      modifies this, limiter
      ensures done && (old(done) ==> Held() == old(Held())) && (!old(done) ==> Held() == [])
      ensures limiter.State() == if old(done) then old(limiter.State()) else PutAll(old(limiter.State()), old(Held()))
    {
      if done {
        return;
      }
      ReleaseOnce();
      done := true;
    }
  }

  // ---- interleavings

  /**
    * A client's life: it joins, takes the slots of its route one by one, holds them, and gives them back in reverse.
    * A cancelled acquisition goes straight to giving back. What is held is always a prefix of the route.
    */
  datatype Stage = Waiting | Holding | Releasing

  datatype Client = Client(kind: Class, largeFile: bool, stage: Stage, held: nat)

  datatype State = State(counts: Counts, clients: map<nat, Client>)

  datatype Event =
    | Join(id: nat, kind: Class, largeFile: bool)
    | TakeNext(id: nat)
    | Cancel(id: nat)
    | Finish(id: nat)
    | GiveBack(id: nat)
    | ReleaseAgain(id: nat)

  function RouteOf(c: Config, k: Client): (r: seq<Pool>)
    ensures r != [] && forall p <- r :: On(c, p)
  {
    Route(c, k.kind, k.largeFile)
  }

  ghost predicate Enabled(c: Config, s: State, e: Event) {
    match e
    case Join(id, _, _) => id !in s.clients
    case TakeNext(id) =>
      && id in s.clients
      && var k := s.clients[id];
         && k.stage == Waiting && k.held < |RouteOf(c, k)|
         && s.counts.Of(RouteOf(c, k)[k.held]) < Capacity(c, RouteOf(c, k)[k.held])
    case Cancel(id) => id in s.clients && s.clients[id].stage == Waiting
    case Finish(id) => id in s.clients && s.clients[id].stage == Holding
    case GiveBack(id) =>
      && id in s.clients
      && var k := s.clients[id];
         k.stage == Releasing && 0 < k.held <= |RouteOf(c, k)|
    case ReleaseAgain(id) => id in s.clients && s.clients[id].stage == Releasing
  }

  /** A slot taken; the last one completes the lease. */
  function Taken(c: Config, k: Client): Client {
    k.(held := k.held + 1, stage := if k.held + 1 >= |RouteOf(c, k)| then Holding else Waiting)
  }

  ghost function Apply(c: Config, s: State, e: Event): State
    requires Enabled(c, s, e)
  {
    match e
    case Join(id, kind, largeFile) => s.(clients := s.clients[id := Client(kind, largeFile, Waiting, 0)])
    case TakeNext(id) =>
      var k := s.clients[id];
      State(Take(s.counts, RouteOf(c, k)[k.held]), s.clients[id := Taken(c, k)])
    case Cancel(id) => s.(clients := s.clients[id := s.clients[id].(stage := Releasing)])
    case Finish(id) => s.(clients := s.clients[id := s.clients[id].(stage := Releasing)])
    case GiveBack(id) =>
      var k := s.clients[id];
      State(Put(s.counts, RouteOf(c, k)[k.held - 1]), s.clients[id := k.(held := k.held - 1)])
    case ReleaseAgain(id) => s
  }

  ghost predicate Run(c: Config, states: seq<State>, events: seq<Event>) {
    && |states| == |events| + 1
    && states[0] == State(EMPTY, map[])
    && forall i :: 0 <= i < |events| ==> Enabled(c, states[i], events[i]) && states[i + 1] == Apply(c, states[i], events[i])
  }

  predicate Holds(c: Config, k: Client, p: Pool) {
    k.held <= |RouteOf(c, k)| && p in RouteOf(c, k)[..k.held]
  }

  function Holders(c: Config, clients: map<nat, Client>, p: Pool): set<nat> {
    set id | id in clients && Holds(c, clients[id], p)
  }

  ghost predicate ClientOk(c: Config, k: Client) {
    && k.held <= |RouteOf(c, k)|
    && (k.stage == Waiting ==> k.held < |RouteOf(c, k)|)
    && (k.stage == Holding ==> k.held == |RouteOf(c, k)|)
  }

  /** Every channel holds exactly the slots of the clients that hold it, within capacity, and nothing was misreleased. */
  ghost predicate Conserved(c: Config, s: State) {
    && (forall id <- s.clients :: ClientOk(c, s.clients[id]))
    && (forall p :: s.counts.Of(p) == |Holders(c, s.clients, p)|)
    && (forall p :: s.counts.Of(p) <= Capacity(c, p))
    && s.counts.misreleases == 0
  }

  lemma HoldersChange(c: Config, clients: map<nat, Client>, id: nat, k: Client, p: Pool)
    ensures Holders(c, clients[id := k], p)
         == if Holds(c, k, p) then Holders(c, clients, p) + {id} else Holders(c, clients, p) - {id}
  {}

  lemma RouteDistinct(c: Config, k: Client, n: nat)
    requires n < |RouteOf(c, k)|
    ensures RouteOf(c, k)[n] !in RouteOf(c, k)[..n]
  {
    var r := RouteOf(c, k);
    forall i | 0 <= i < n
      ensures r[i] != r[n]
    {
      RouteIsOrdered(c, k.kind, k.largeFile, i, n);
    }
  }

  /** Taking slot `n` adds exactly that pool to what a client holds. */
  lemma HoldsNext(c: Config, k: Client, after: Client, p: Pool)
    requires after.kind == k.kind && after.largeFile == k.largeFile && after.held == k.held + 1
    requires k.held < |RouteOf(c, k)|
    ensures Holds(c, after, p) <==> Holds(c, k, p) || p == RouteOf(c, k)[k.held]
    ensures !Holds(c, k, RouteOf(c, k)[k.held])
  {
    var r := RouteOf(c, k);
    assert r[..k.held + 1] == r[..k.held] + [r[k.held]];
    RouteDistinct(c, k, k.held);
  }

  lemma TakeCounts(c: Config, clients: map<nat, Client>, id: nat, after: Client, q: Pool)
    requires id in clients && clients[id].held < |RouteOf(c, clients[id])|
    requires after.kind == clients[id].kind && after.largeFile == clients[id].largeFile && after.held == clients[id].held + 1
    ensures |Holders(c, clients[id := after], q)|
         == |Holders(c, clients, q)| + (if q == RouteOf(c, clients[id])[clients[id].held] then 1 else 0)
  {
    HoldersChange(c, clients, id, after, q);
    HoldsNext(c, clients[id], after, q);
    if q == RouteOf(c, clients[id])[clients[id].held] {
      assert id !in Holders(c, clients, q);
    } else {
      assert Holders(c, clients[id := after], q) == Holders(c, clients, q);
    }
  }

  lemma TakeConserves(c: Config, s: State, id: nat)
    requires Conserved(c, s) && Enabled(c, s, TakeNext(id))
    ensures Conserved(c, Apply(c, s, TakeNext(id)))
  {
    var t := Apply(c, s, TakeNext(id));
    forall q
      ensures t.counts.Of(q) == |Holders(c, t.clients, q)| && t.counts.Of(q) <= Capacity(c, q)
    {
      TakeCounts(c, s.clients, id, Taken(c, s.clients[id]), q);
    }
  }

  lemma GiveBackCounts(c: Config, clients: map<nat, Client>, id: nat, after: Client, q: Pool)
    requires id in clients && 0 < clients[id].held <= |RouteOf(c, clients[id])|
    requires after.kind == clients[id].kind && after.largeFile == clients[id].largeFile && after.held == clients[id].held - 1
    ensures |Holders(c, clients[id := after], q)|
         == |Holders(c, clients, q)| - (if q == RouteOf(c, clients[id])[after.held] then 1 else 0)
  {
    HoldersChange(c, clients, id, after, q);
    HoldsNext(c, after, clients[id], q);
    if q == RouteOf(c, clients[id])[after.held] {
      assert id in Holders(c, clients, q);
    } else {
      assert Holders(c, clients[id := after], q) == Holders(c, clients, q);
    }
  }

  lemma HeldSlotIsCounted(c: Config, s: State, id: nat)
    requires Conserved(c, s) && Enabled(c, s, GiveBack(id))
    ensures s.counts.Of(RouteOf(c, s.clients[id])[s.clients[id].held - 1]) > 0
  {
    var k := s.clients[id];
    var p := RouteOf(c, k)[k.held - 1];
    assert RouteOf(c, k)[..k.held][k.held - 1] == p;
    assert id in Holders(c, s.clients, p);
  }

  lemma GiveBackConserves(c: Config, s: State, id: nat)
    requires Conserved(c, s) && Enabled(c, s, GiveBack(id))
    ensures Conserved(c, Apply(c, s, GiveBack(id)))
  {
    var t := Apply(c, s, GiveBack(id));
    var after := s.clients[id].(held := s.clients[id].held - 1);
    HeldSlotIsCounted(c, s, id);
    forall q
      ensures t.counts.Of(q) == |Holders(c, t.clients, q)| && t.counts.Of(q) <= Capacity(c, q)
    {
      GiveBackCounts(c, s.clients, id, after, q);
    }
  }

  /** A change of stage alone moves no slot. */
  lemma StageConserves(c: Config, s: State, id: nat, k: Client)
    requires Conserved(c, s) && ClientOk(c, k)
    requires forall p :: Holds(c, k, p) <==> id in s.clients && Holds(c, s.clients[id], p)
    ensures Conserved(c, s.(clients := s.clients[id := k]))
  {
    forall p
      ensures Holders(c, s.clients[id := k], p) == Holders(c, s.clients, p)
    {
      HoldersChange(c, s.clients, id, k, p);
    }
  }

  lemma StepConserves(c: Config, s: State, e: Event)
    requires Conserved(c, s) && Enabled(c, s, e)
    ensures Conserved(c, Apply(c, s, e))
  {
    match e
    case Join(id, kind, largeFile) => StageConserves(c, s, id, Client(kind, largeFile, Waiting, 0));
    case TakeNext(id) => TakeConserves(c, s, id);
    case Cancel(id) => StageConserves(c, s, id, s.clients[id].(stage := Releasing));
    case Finish(id) => StageConserves(c, s, id, s.clients[id].(stage := Releasing));
    case GiveBack(id) => GiveBackConserves(c, s, id);
    case ReleaseAgain(id) =>
  }

  lemma StartConserves(c: Config)
    ensures Conserved(c, State(EMPTY, map[]))
  {
    forall p
      ensures EMPTY.Of(p) == |Holders(c, map[], p)|
    {
      assert Holders(c, map[], p) == {};
    }
  }

  /** Slot conservation over every run: occupancy equals the live holdings, within capacity, with no misrelease. */
  lemma {:induction false} RunConserves(c: Config, states: seq<State>, events: seq<Event>)
    requires Run(c, states, events)
    ensures forall s <- states :: Conserved(c, s)
    decreases |events|
  {
    StartConserves(c);
    if events != [] {
      var n := |events| - 1;
      RunConserves(c, states[..n + 1], events[..n]);
      assert states[n] in states[..n + 1];
      StepConserves(c, states[n], events[n]);
      assert states == states[..n + 1] + [states[n + 1]];
    }
  }

  /** Once every client has given everything back, every channel is empty. */
  lemma AllReleasedMeansEmpty(c: Config, s: State)
    requires Conserved(c, s) && forall id <- s.clients :: s.clients[id].held == 0
    ensures s.counts == EMPTY
  {
    forall p
      ensures s.counts.Of(p) == EMPTY.Of(p)
    {
      assert Holders(c, s.clients, p) == {};
    }
    SameCounts(s.counts, EMPTY);
  }

  // ---- progress

  function NextPool(c: Config, k: Client): Pool
    requires ClientOk(c, k) && k.stage == Waiting
  {
    RouteOf(c, k)[k.held]
  }

  ghost predicate WaitsAt(c: Config, s: State, id: nat, rank: nat) {
    && id in s.clients
    && ClientOk(c, s.clients[id])
    && s.clients[id].stage == Waiting
    && Rank(NextPool(c, s.clients[id])) == rank
  }

  ghost predicate Complete(s: State, id: nat) {
    id in s.clients && s.clients[id].stage == Holding
  }

  /** With no complete lease and nothing to give back, whoever holds a pool waits further along. */
  lemma HolderWaitsFurther(c: Config, s: State, id: nat, p: Pool)
    requires Conserved(c, s) && id in Holders(c, s.clients, p)
    requires !Complete(s, id) && !Enabled(c, s, GiveBack(id))
    ensures s.clients[id].stage == Waiting && Rank(NextPool(c, s.clients[id])) > Rank(p)
  {
    var k := s.clients[id];
    var r := RouteOf(c, k);
    var i :| 0 <= i < k.held && r[..k.held][i] == p;
    if k.stage == Waiting {
      RouteIsOrdered(c, k.kind, k.largeFile, i, k.held);
    }
  }

  lemma HighestWaiterMoves(c: Config, s: State, id: nat, rank: nat)
    requires Conserved(c, s) && WaitsAt(c, s, id, rank)
    requires forall k: nat, r: nat :: WaitsAt(c, s, k, r) ==> r <= rank
    requires forall k: nat :: !Complete(s, k) && !Enabled(c, s, GiveBack(k))
    ensures Enabled(c, s, TakeNext(id))
  {
    var p := NextPool(c, s.clients[id]);
    forall k | k in Holders(c, s.clients, p)
      ensures false
    {
      HolderWaitsFurther(c, s, k, p);
      assert WaitsAt(c, s, k, Rank(NextPool(c, s.clients[k])));
    }
    assert Holders(c, s.clients, p) == {};
    assert p in RouteOf(c, s.clients[id]);
  }

  /**
    * Deadlock freedom: whenever someone waits, somebody holds a complete lease, or a slot can be given back, or a
    * waiting client's next slot is free.
    */
  lemma NoDeadlock(c: Config, s: State, waiter: nat)
    requires Conserved(c, s) && waiter in s.clients && s.clients[waiter].stage == Waiting
    ensures exists id: nat :: Complete(s, id) || Enabled(c, s, GiveBack(id)) || Enabled(c, s, TakeNext(id))
  {
    if forall id: nat :: !Complete(s, id) && !Enabled(c, s, GiveBack(id)) {
      assert WaitsAt(c, s, waiter, Rank(NextPool(c, s.clients[waiter])));
      if id: nat :| WaitsAt(c, s, id, 2) {
        HighestWaiterMoves(c, s, id, 2);
      } else if id: nat :| WaitsAt(c, s, id, 1) {
        HighestWaiterMoves(c, s, id, 1);
      } else {
        HighestWaiterMoves(c, s, waiter, 0);
      }
    }
  }

  /** The same over whole runs. */
  lemma RunNeverDeadlocks(c: Config, states: seq<State>, events: seq<Event>, i: nat, waiter: nat)
    requires Run(c, states, events) && i < |states|
    requires waiter in states[i].clients && states[i].clients[waiter].stage == Waiting
    ensures exists id: nat ::
              Complete(states[i], id) || Enabled(c, states[i], GiveBack(id)) || Enabled(c, states[i], TakeNext(id))
  {
    RunConserves(c, states, events);
    NoDeadlock(c, states[i], waiter);
  }
}
