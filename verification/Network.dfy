/** Routers on one link. Everything a router ever sent stays available for delivery to any
    router at any time, any number of times or never, and with an octet damaged: loss,
    duplication, reordering and corruption. */
module Network {
  import opened Wire
  import opened Packet
  import opened CodecProofs
  import opened Timers
  import opened Machine
  import opened RouterProofs

  datatype Action =
    | Start(i: nat, now: Instant)
    | Poll(i: nat, now: Instant)
    | Deliver(to: nat, from: nat, k: nat, now: Instant)
    | Damage(to: nat, from: nat, k: nat, octet: nat, value: byte, now: Instant)

  type Net = seq<Router>

  /** One router acts; an action that names no router, or no sent advertisement, is idle. */
  function Act(n: Net, a: Action): (r: Net)
    ensures |r| == |n|
  {
    match a
    case Start(i, now) => if i < |n| then n[i := Step(n[i], StartupAt(now))] else n
    case Poll(i, now) => if i < |n| then n[i := Step(n[i], TickAt(now))] else n
    case Deliver(i, j, k, now) =>
      if i < |n| && j < |n| && k < |n[j].sent| && n[j].sent[k].Advert?
      then n[i := Step(n[i], Packet(n[j].sent[k].datagram, now))] else n
    case Damage(i, j, k, x, b, now) =>
      if i < |n| && j < |n| && k < |n[j].sent| && n[j].sent[k].Advert?
         && Damages(n[j].sent[k].datagram, x, b)
      then n[i := Step(n[i], Packet(Damaged(n[j].sent[k].datagram, x, b), now))] else n
  }

  /** A value other than the octet at x. */
  predicate Damages(d: Datagram, x: nat, b: byte) {
    x < |d.payload| && d.payload[x] != b
  }

  function Damaged(d: Datagram, x: nat, b: byte): Datagram
    requires x < |d.payload|
  {
    d.(payload := d.payload[x := b])
  }

  function Run(n: Net, actions: seq<Action>): (r: Net)
    ensures |r| == |n|
    decreases |actions|
  {
    if actions == [] then n else Run(Act(n, actions[0]), actions[1..])
  }

  lemma {:induction false} RunConcat(n: Net, a: seq<Action>, b: seq<Action>)
    ensures Run(n, a + b) == Run(Run(n, a), b)
    decreases |a|
  {
    if a == [] {
      assert a + b == b;
    } else {
      assert (a + b)[1..] == a[1..] + b && (a + b)[0] == a[0];
      RunConcat(Act(n, a[0]), a[1..], b);
    }
  }

  /** Time does not go back along the run. */
  predicate InOrder(actions: seq<Action>) {
    forall i, j :: 0 <= i < j < |actions| ==> actions[i].now <= actions[j].now
  }

  // ----- What one step of one router can send and how it can move -----

  predicate SameStatic(r: Router, s: Router) {
    r.cfg == s.cfg && r.primaryV4 == s.primaryV4 && r.primaryV6 == s.primaryV6 && r.hostAddrs == s.hostAddrs
  }

  /** Every advertisement in the log is one the router's settings call for. */
  predicate SentOwn(r: Router) {
    forall k :: 0 <= k < |r.sent| && r.sent[k].Advert? ==> r.sent[k] in Adverts(r)
  }

  predicate HasAdvertised(r: Router) {
    exists k :: 0 <= k < |r.sent| && r.sent[k].Advert?
  }

  predicate IsPrefix(a: seq<Frame>, b: seq<Frame>) {
    |a| <= |b| && a == b[..|a|]
  }

  /** A step sends only the router's own advertisements, and only if it ends as Master. */
  predicate SpeaksAsMaster(r: Router, r': Router) {
    && SameStatic(r, r')
    && IsPrefix(r.sent, r'.sent)
    && (forall k :: |r.sent| <= k < |r'.sent| && r'.sent[k].Advert? ==>
          r'.sent[k] in Adverts(r) && r'.fsm.state == Master)
  }

  lemma {:induction false} ArpsAreNotAdverts(addrs: seq<Ipv4Addr>)
    ensures forall k :: 0 <= k < |GratuitousArps(addrs)| ==> !GratuitousArps(addrs)[k].Advert?
  {
    if addrs == [] {
    } else {
      ArpsAreNotAdverts(addrs[1..]);
    }
  }

  lemma {:induction false} NeighborsAreNotAdverts(addrs: seq<Ipv6Addr>)
    ensures forall k :: 0 <= k < |NeighborAdverts(addrs)| ==> !NeighborAdverts(addrs)[k].Advert?
  {
    if addrs == [] {
    } else {
      NeighborsAreNotAdverts(addrs[1..]);
    }
  }

  lemma {:induction false} NotifySpeaksAsMaster(r: Router, event: Event, now: Instant)
    requires !event.Shutdown?
    ensures SpeaksAsMaster(r, Notify(r, event, now))
  {
    ArpsAreNotAdverts(Addrs4(r.cfg.ipv4));
    NeighborsAreNotAdverts(Addrs6(r.cfg.ipv6));
  }

  lemma {:induction false} ReactSpeaksAsMaster(r: Router, p: VrrpPacket, now: Instant)
    ensures SpeaksAsMaster(r, React(r, p, now))
  {
  }

  lemma {:induction false} TickSpeaksAsMaster(r: Router, now: Instant)
    requires Coherent(r)
    ensures SpeaksAsMaster(r, Tick(r, now))
  {
    if r.fsm.state == Backup {
      NotifySpeaksAsMaster(r, MasterDown, now);
    }
  }

  lemma {:induction false} StepSpeaksAsMaster(r: Router, input: Input)
    requires Coherent(r) && !input.ShutdownNow?
    ensures SpeaksAsMaster(r, Step(r, input))
  {
    match input
    case StartupAt(now) => NotifySpeaksAsMaster(r, Startup, now);
    case TickAt(now) => TickSpeaksAsMaster(r, now);
    case Packet(d, now) =>
      if Accepted(r, d).Some? {
        ReactSpeaksAsMaster(r, Accepted(r, d).value, now);
      }
  }

  /** An advertisement that gets through carries its sender's priority. */
  lemma {:induction false} AcceptedPriority(r: Router, s: Router, d: Datagram)
    requires Advert(d) in Adverts(s) && Accepted(r, d).Some?
    ensures Accepted(r, d).value.priority == s.cfg.priority
  {
    AdvertV4Accepted(r, s);
    if SendsV6(s) {
      AdvertV6Accepted(r, s);
    }
  }

  /** A damaged advertisement is never accepted, whoever sent it and whoever hears it. */
  lemma {:induction false} DamagedIsDropped(r: Router, s: Router, d: Datagram, x: nat, b: byte)
    requires Advert(d) in Adverts(s) && Damages(d, x, b)
    ensures Accepted(r, Damaged(d, x, b)) == None
  {
    if d == AdvertV4(s) {
      EncodedV4Verifies(AdvertPacket(s.cfg, V4Addresses(Addrs4(s.cfg.ipv4))));
      CorruptionCaughtV4(d.payload, x, b);
    } else {
      var src := s.primaryV6.value;
      EncodedV6Verifies(AdvertPacket(s.cfg, V6Addresses(Addrs6(s.cfg.ipv6))), src);
      CorruptionCaughtV6(d.payload, src, VRRP_V6_MCAST_ADDR, x, b);
    }
  }

  /** The addresses a router sends from are on its own host. */
  predicate SourcesLocal(r: Router) {
    IpV4(r.primaryV4) in r.hostAddrs && (r.primaryV6.Some? ==> IpV6(r.primaryV6.value) in r.hostAddrs)
  }

  /** The own-source filter: a router never hears itself. */
  lemma {:induction false} NeverHearsItself(r: Router, d: Datagram)
    requires SourcesLocal(r) && Advert(d) in Adverts(r)
    ensures Accepted(r, d) == None
  {
  }

  /** A Master leaves its state only for an advertisement of at least its own, non-zero
      priority. */
  lemma {:induction false} MasterYieldsOnly(r: Router, input: Input)
    requires Coherent(r) && r.fsm.state == Master && !input.ShutdownNow?
    requires Step(r, input).fsm.state != Master
    ensures input.Packet? && Accepted(r, input.datagram).Some?
    ensures var p := Accepted(r, input.datagram).value;
            p.priority != 0 && p.priority >= r.cfg.priority
  {
  }

  // ----- No gap in mastership -----

  /** The routers in ever are all that have been Master, or advertised; the highest of them
      still is Master. */
  ghost predicate IsTopOf(n: Net, ever: set<nat>, i: nat) {
    && i in ever && i < |n|
    && forall j :: j in ever && j < |n| ==> n[j].cfg.priority <= n[i].cfg.priority
  }

  predicate RouterInv(r: Router, counted: bool) {
    Coherent(r) && SentOwn(r) && SourcesLocal(r)
    && (HasAdvertised(r) || r.fsm.state == Master ==> counted)
  }

  ghost predicate Inv(n: Net, ever: set<nat>) {
    && (forall i :: i in ever ==> i < |n|)
    && (forall i :: 0 <= i < |n| ==> RouterInv(n[i], i in ever))
    && (forall i: nat :: IsTopOf(n, ever, i) ==> n[i].fsm.state == Master)
  }

  /** Two routers share a priority only if it is 0. */
  predicate NoSharedPriority(n: Net) {
    forall i, j :: 0 <= i < j < |n| && n[i].cfg.priority == n[j].cfg.priority ==> n[i].cfg.priority == 0
  }

  ghost predicate SameStatics(n: Net, m: Net) {
    |n| == |m| && forall i :: 0 <= i < |n| ==> SameStatic(n[i], m[i])
  }

  lemma {:induction false} SpeakingKeepsOwn(r: Router, r': Router)
    requires SpeaksAsMaster(r, r') && SentOwn(r)
    ensures SentOwn(r')
    ensures HasAdvertised(r') ==> HasAdvertised(r) || r'.fsm.state == Master
  {
    assert Adverts(r') == Adverts(r);
    forall k | 0 <= k < |r'.sent| && r'.sent[k].Advert?
      ensures r'.sent[k] in Adverts(r)
      ensures k < |r.sent| ==> HasAdvertised(r)
    {
      if k < |r.sent| {
        assert r.sent[k] == r'.sent[k];
      }
    }
  }

  lemma {:induction false} RouterStepKeepsInv(n: Net, ever: set<nat>, i: nat, r': Router) returns (ever': set<nat>)
    requires Inv(n, ever) && i < |n|
    requires SpeaksAsMaster(n[i], r') && Coherent(r')
    requires IsTopOf(n, ever, i) ==> r'.fsm.state == Master
    ensures ever <= ever' && Inv(n[i := r'], ever')
  {
    ever' := if r'.fsm.state == Master then ever + {i} else ever;
    var m := n[i := r'];
    SpeakingKeepsOwn(n[i], r');
    assert RouterInv(n[i], i in ever);
    assert forall k :: 0 <= k < |m| && k != i ==> m[k] == n[k] && (k in ever' <==> k in ever);
    forall t: nat | IsTopOf(m, ever', t)
      ensures m[t].fsm.state == Master
    {
      if t in ever {
        assert forall j :: j in ever ==> m[j].cfg.priority == n[j].cfg.priority;
        assert IsTopOf(n, ever, t);
      }
    }
  }

  /** The highest router that has ever been Master stays Master, whatever is delivered. */
  lemma {:induction false} TopStaysMaster(n: Net, ever: set<nat>, i: nat, j: nat, k: nat, now: Instant)
    requires Inv(n, ever) && NoSharedPriority(n) && IsTopOf(n, ever, i)
    requires j < |n| && k < |n[j].sent| && n[j].sent[k].Advert?
    ensures Step(n[i], Packet(n[j].sent[k].datagram, now)).fsm.state == Master
  {
    var d := n[j].sent[k].datagram;
    assert RouterInv(n[j], j in ever) && RouterInv(n[i], i in ever);
    assert Advert(d) in Adverts(n[j]);
    if Step(n[i], Packet(d, now)).fsm.state != Master {
      MasterYieldsOnly(n[i], Packet(d, now));
      AcceptedPriority(n[i], n[j], d);
      if i == j {
        NeverHearsItself(n[i], d);
      }
    }
  }

  /** Damage to an advertisement changes nothing anywhere. */
  lemma {:induction false} DamageIsIdle(n: Net, a: Action)
    requires a.Damage? && forall i :: 0 <= i < |n| ==> SentOwn(n[i])
    ensures Act(n, a) == n
  {
    var i, j, k := a.to, a.from, a.k;
    if i < |n| && j < |n| && k < |n[j].sent| && n[j].sent[k].Advert?
       && Damages(n[j].sent[k].datagram, a.octet, a.value) {
      assert SentOwn(n[j]);
      DamagedIsDropped(n[i], n[j], n[j].sent[k].datagram, a.octet, a.value);
    }
  }

  lemma {:induction false} DeliverKeepsInv(n: Net, ever: set<nat>, i: nat, j: nat, k: nat, now: Instant)
    returns (ever': set<nat>)
    requires Inv(n, ever) && NoSharedPriority(n)
    requires i < |n| && j < |n| && k < |n[j].sent| && n[j].sent[k].Advert?
    ensures var m := n[i := Step(n[i], Packet(n[j].sent[k].datagram, now))];
            ever <= ever' && Inv(m, ever') && SameStatics(n, m)
  {
    if IsTopOf(n, ever, i) {
      TopStaysMaster(n, ever, i, j, k, now);
    }
    ever' := ActOnKeepsInv(n, ever, i, Packet(n[j].sent[k].datagram, now));
  }

  lemma {:induction false} ActKeepsInv(n: Net, ever: set<nat>, a: Action) returns (ever': set<nat>)
    requires Inv(n, ever) && NoSharedPriority(n)
    ensures ever <= ever' && Inv(Act(n, a), ever') && SameStatics(n, Act(n, a))
  {
    ever' := ever;
    match a
    case Start(i, now) =>
      if i < |n| {
        ever' := ActOnKeepsInv(n, ever, i, StartupAt(now));
      }
    case Poll(i, now) =>
      if i < |n| {
        ever' := ActOnKeepsInv(n, ever, i, TickAt(now));
      }
    case Deliver(i, j, k, now) =>
      if i < |n| && j < |n| && k < |n[j].sent| && n[j].sent[k].Advert? {
        ever' := DeliverKeepsInv(n, ever, i, j, k, now);
      }
    case Damage(_, _, _, _, _, _) =>
      assert forall i :: 0 <= i < |n| ==> RouterInv(n[i], i in ever);
      DamageIsIdle(n, a);
  }

  lemma {:induction false} ActOnKeepsInv(n: Net, ever: set<nat>, i: nat, input: Input) returns (ever': set<nat>)
    requires Inv(n, ever) && i < |n| && !input.ShutdownNow?
    requires input.Packet? && IsTopOf(n, ever, i) ==> Step(n[i], input).fsm.state == Master
    ensures ever <= ever' && Inv(n[i := Step(n[i], input)], ever') && SameStatics(n, n[i := Step(n[i], input)])
  {
    var r' := Step(n[i], input);
    assert RouterInv(n[i], i in ever);
    StepSpeaksAsMaster(n[i], input);
    StepKeepsCoherent(n[i], input);
    if IsTopOf(n, ever, i) && r'.fsm.state != Master {
      MasterYieldsOnly(n[i], input);
    }
    ever' := RouterStepKeepsInv(n, ever, i, r');
  }

  lemma {:induction false} RunKeepsInv(n: Net, ever: set<nat>, actions: seq<Action>) returns (ever': set<nat>)
    requires Inv(n, ever) && NoSharedPriority(n)
    ensures ever <= ever' && Inv(Run(n, actions), ever') && SameStatics(n, Run(n, actions))
    decreases |actions|
  {
    ever' := ever;
    if actions == [] {
    } else {
      var next := Act(n, actions[0]);
      ever' := ActKeepsInv(n, ever, actions[0]);
      ever' := RunKeepsInv(next, ever', actions[1..]);
    }
  }

  lemma {:induction false} TopExists(n: Net, ever: set<nat>) returns (t: nat)
    requires ever != {} && forall i :: i in ever ==> i < |n|
    ensures IsTopOf(n, ever, t)
    decreases ever
  {
    var x :| x in ever;
    var rest := ever - {x};
    if rest == {} {
      assert ever == {x};
      t := x;
    } else {
      var u := TopExists(n, rest);
      t := if n[x].cfg.priority > n[u].cfg.priority then x else u;
      assert forall j :: j in ever ==> j == x || j in rest;
    }
  }

  /** A started network: no one has spoken, and everyone's source is its own. */
  predicate Quiescent(n: Net) {
    forall i :: 0 <= i < |n| ==> Fresh(n[i]) && n[i].sent == [] && SourcesLocal(n[i])
  }

  /** From any point of a run where i is Master, at any later point some router of at least
      its priority is Master. */
  ghost predicate KeepsMaster(n: Net, before: seq<Action>, after: seq<Action>) {
    forall i :: 0 <= i < |n| && Run(n, before)[i].fsm.state == Master ==>
      exists j :: 0 <= j < |n| && Run(n, before + after)[j].fsm.state == Master
                  && n[j].cfg.priority >= n[i].cfg.priority
  }

  lemma {:induction false} NoMastershipGap(n: Net, before: seq<Action>, after: seq<Action>)
    requires Quiescent(n) && NoSharedPriority(n)
    ensures KeepsMaster(n, before, after)
  {
    var m := Run(n, before);
    var ever := RunKeepsInv(n, {}, before);
    assert NoSharedPriority(m);
    var ever' := RunKeepsInv(m, ever, after);
    RunConcat(n, before, after);
    var e := Run(m, after);
    forall i | 0 <= i < |n| && m[i].fsm.state == Master
      ensures exists j :: 0 <= j < |n| && Run(n, before + after)[j].fsm.state == Master
                          && n[j].cfg.priority >= n[i].cfg.priority
    {
      var t := TopExists(e, ever');
      assert i in ever';
      assert e[t].fsm.state == Master && n[t].cfg.priority >= n[i].cfg.priority;
    }
  }

  /** r gets the IPv4 advertisements of s whatever virtual addresses it holds. */
  predicate Hears(r: Router, s: Router) {
    && |s.cfg.ipv4| <= MAX_IP_COUNT && Agrees(r.cfg, s.cfg)
    && ListFits(r.cfg, s.cfg, V4Addresses(Addrs4(s.cfg.ipv4)))
    && Foreign(r, IpV4(s.primaryV4))
  }

  predicate AllHear(n: Net) {
    forall i, j :: 0 <= i < |n| && 0 <= j < |n| && i != j ==> Hears(n[i], n[j])
  }

  /** The router after some steps: same settings, at most its own addresses added. */
  predicate Later(was: Router, r: Router) {
    && SameStatic(was, r)
    && r.linkV4 <= was.linkV4 + Nets4(was.cfg) && r.linkV6 <= was.linkV6 + Nets6(was.cfg)
  }

  /** A router never takes a foreign source for its own, whatever it has put on its links. */
  lemma {:induction false} HearsLater(was: Router, r: Router, s: Router)
    requires Hears(was, s) && Later(was, r)
    ensures Hears(r, s) && Accepted(r, AdvertV4(s)).Some?
  {
    AdvertV4Accepted(r, s);
  }

  /** Up and about to be heard: a Master whose first frame is its IPv4 advertisement. */
  predicate Risen(was: Router, r: Router) {
    && r.fsm.state == Master && Later(was, r) && HasTakenUp(was, r)
    && r.sent != [] && r.sent[0] == Advert(AdvertV4(was))
  }

  /** A Master that hears another of its own non-zero priority steps down, always. */
  lemma {:induction false} EqualMasterYields(was: Router, r: Router, s: Router, now: Instant)
    requires Risen(was, r) && Hears(was, s) && was.cfg.priority == s.cfg.priority != 0
    ensures var r' := Step(r, Packet(AdvertV4(s), now));
            r'.fsm.state == Backup && r'.sent == r.sent
  {
    HearsLater(was, r, s);
    AcceptedPriority(r, s, AdvertV4(s));
  }

  /** Started and polled once its deadline has passed, router i is Master, the others as they were. */
  lemma {:induction false} BringUp(n: Net, i: nat, start: Instant) returns (late: Instant, actions: seq<Action>)
    requires i < |n| && Fresh(n[i]) && n[i].sent == []
    ensures late >= start && actions == [Start(i, start), Poll(i, late)]
    ensures var m := Run(n, actions);
            m == n[i := m[i]] && Risen(n[i], m[i])
  {
    late := AloneBecomesMaster(n[i], start);
    actions := [Start(i, start), Poll(i, late)];
    var one := Act(n, actions[0]);
    var two := Act(one, actions[1]);
    assert actions[1..] == [Poll(i, late)] && [Poll(i, late)][1..] == [];
    assert Run(n, actions) == Run(one, [Poll(i, late)]) == Run(two, []) == two;
    assert [StartupAt(start), TickAt(late)] == [StartupAt(start)] + [TickAt(late)];
    ExecCons(n[i], StartupAt(start), [TickAt(late)]);
    ExecOne(one[i], TickAt(late));
  }

  lemma {:induction false} RunOne(n: Net, a: Action)
    ensures Run(n, [a]) == Act(n, a)
  {
  }

  /** Both routers started and polled, one after the other. */
  lemma {:induction false} BringUpBoth(n: Net, i: nat, j: nat)
    returns (mid: Instant, late: Instant, actions: seq<Action>)
    requires Quiescent(n) && i < |n| && j < |n| && i != j
    ensures mid <= late && actions == [Start(i, 0), Poll(i, mid)] + [Start(j, mid), Poll(j, late)]
    ensures var m := Run(n, actions);
            m == n[i := m[i]][j := m[j]] && Risen(n[i], m[i]) && Risen(n[j], m[j])
  {
    var first, second;
    mid, first := BringUp(n, i, 0);
    late, second := BringUp(Run(n, first), j, mid);
    actions := first + second;
    RunConcat(n, first, second);
  }

  lemma {:induction false} BothYield(n: Net, m: Net, i: nat, j: nat, now: Instant) returns (actions: seq<Action>)
    requires |n| == |m| && i < |n| && j < |n| && i != j && Hears(n[i], n[j]) && Hears(n[j], n[i])
    requires n[i].cfg.priority == n[j].cfg.priority != 0
    requires Risen(n[i], m[i]) && Risen(n[j], m[j])
    ensures actions == [Deliver(i, j, 0, now), Deliver(j, i, 0, now)]
    ensures var e := Run(m, actions);
            e == m[i := e[i]][j := e[j]] && e[i].fsm.state == Backup && e[j].fsm.state == Backup
  {
    var d1, d2 := Deliver(i, j, 0, now), Deliver(j, i, 0, now);
    var m1 := Act(m, d1);
    EqualMasterYields(n[i], m[i], n[j], now);
    EqualMasterYields(n[j], m[j], n[i], now);
    assert m1[i].sent == m[i].sent && m1[j] == m[j];
    actions := [d1] + [d2];
    RunOne(m, d1);
    RunOne(m1, d2);
    RunConcat(m, [d1], [d2]);
  }

  lemma {:induction false} GapInOrder(i: nat, j: nat, mid: Instant, late: Instant)
    requires mid <= late
    ensures InOrder([Start(i, 0), Poll(i, mid)] + [Start(j, mid), Poll(j, late)]
                    + [Deliver(i, j, 0, late), Deliver(j, i, 0, late)])
  {
  }

  /** The run with a gap: both routers of the shared priority come up, then hear each other. */
  lemma {:induction false} SharedPriorityGap(n: Net, i: nat, j: nat)
    returns (before: seq<Action>, after: seq<Action>)
    requires Quiescent(n) && i < |n| && j < |n| && i != j && Hears(n[i], n[j]) && Hears(n[j], n[i])
    requires n[i].cfg.priority == n[j].cfg.priority != 0
    ensures InOrder(before + after) && !KeepsMaster(n, before, after)
  {
    var mid, late;
    mid, late, before := BringUpBoth(n, i, j);
    after := BothYield(n, Run(n, before), i, j, late);
    GapInOrder(i, j, mid, late);
    RunConcat(n, before, after);
    var e := Run(n, before + after);
    assert forall k :: 0 <= k < |n| && k != i && k != j ==> e[k] == n[k];
    assert Run(n, before)[i].fsm.state == Master;
  }

  /** Among routers that hear each other, mastership is never interrupted, in any run in which
      time does not go back, with loss, duplication, reordering and damaged octets, exactly when
      no two share a non-zero priority. */
  lemma {:induction false} NoGapExactly(n: Net)
    requires Quiescent(n) && AllHear(n)
    ensures (forall before: seq<Action>, after: seq<Action> | InOrder(before + after) ::
               KeepsMaster(n, before, after))
       <==> NoSharedPriority(n)
  {
    if NoSharedPriority(n) {
      forall before: seq<Action>, after: seq<Action> | InOrder(before + after)
        ensures KeepsMaster(n, before, after)
      {
        NoMastershipGap(n, before, after);
      }
    } else {
      var i, j :| 0 <= i < j < |n| && n[i].cfg.priority == n[j].cfg.priority != 0;
      var before, after := SharedPriorityGap(n, i, j);
    }
  }
}
