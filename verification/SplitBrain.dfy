/** Two routers that both stay Master: the own-source filter looks at every interface, so a
    Master that holds a virtual address another router sends from takes that router for itself. */
module SplitBrain {
  import opened Wire
  import opened Packet
  import opened Timers
  import opened Machine
  import opened RouterProofs
  import opened Network
  import opened Election

  // ----- One Master and one sender of at least its priority -----

  predicate Outranks(s: Router, r: Router) {
    s.cfg.priority != 0 && s.cfg.priority >= r.cfg.priority
  }

  predicate AdvertsOf(s: Router, ds: set<Datagram>) {
    forall d :: d in ds ==> Advert(d) in Adverts(s)
  }

  predicate TicksAndPackets(inputs: seq<Input>, ds: set<Datagram>) {
    forall k :: 0 <= k < |inputs| ==> inputs[k].TickAt? || (inputs[k].Packet? && inputs[k].datagram in ds)
  }

  lemma {:induction false} TailOfTicksAndPackets(inputs: seq<Input>, ds: set<Datagram>)
    requires inputs != [] && TicksAndPackets(inputs, ds)
    ensures TicksAndPackets(inputs[1..], ds)
    ensures inputs[0].TickAt? || (inputs[0].Packet? && inputs[0].datagram in ds)
  {
  }

  lemma {:induction false} BackupStep(r: Router, s: Router, input: Input, ds: set<Datagram>)
    requires Coherent(r) && r.fsm.state == Backup && Outranks(s, r) && AdvertsOf(s, ds) && !Fires(r, input)
    requires input.TickAt? || (input.Packet? && input.datagram in ds)
    ensures Step(r, input).fsm.state == Backup
  {
    if input.Packet? && Accepted(r, input.datagram).Some? {
      AcceptedPriority(r, s, input.datagram);
    }
  }

  lemma {:induction false} StaysBackup(r: Router, s: Router, inputs: seq<Input>, ds: set<Datagram>)
    requires Coherent(r) && r.fsm.state == Backup && Outranks(s, r) && AdvertsOf(s, ds)
    requires TicksAndPackets(inputs, ds) && NoMasterDown(r, inputs)
    ensures Exec(r, inputs).fsm.state == Backup
    decreases |inputs|
  {
    if inputs == [] {
    } else {
      TailOfTicksAndPackets(inputs, ds);
      StepKeepsCoherent(r, inputs[0]);
      BackupStep(r, s, inputs[0], ds);
      StaysBackup(Step(r, inputs[0]), s, inputs[1..], ds);
    }
  }

  /** A Master's step: it stays as it is but for its timer and log, unless it yields to an
      accepted advertisement of the sender. */
  lemma {:induction false} MasterStep(r: Router, s: Router, input: Input, ds: set<Datagram>)
    requires Coherent(r) && r.fsm.state == Master && Outranks(s, r) && AdvertsOf(s, ds)
    requires input.TickAt? || (input.Packet? && input.datagram in ds)
    ensures var r' := Step(r, input);
            if input.Packet? && Accepted(r, input.datagram).Some? then r'.fsm.state == Backup
            else r'.fsm.state == Master && r' == r.(fsm := r'.fsm, sent := r'.sent)
  {
    if input.Packet? && Accepted(r, input.datagram).Some? {
      AcceptedPriority(r, s, input.datagram);
    }
  }

  ghost predicate HearsOneOf(r: Router, ds: set<Datagram>) {
    exists d :: d in ds && Accepted(r, d).Some?
  }

  lemma {:induction false} SameEars(r: Router, r': Router, ds: set<Datagram>)
    requires r' == r.(fsm := r'.fsm, sent := r'.sent)
    ensures HearsOneOf(r', ds) <==> HearsOneOf(r, ds)
  {
    assert forall d :: Accepted(r', d) == Accepted(r, d);
  }

  /** Whatever the order and number of the deliveries, a Master gives way to a sender that
      outranks it exactly when it hears one of the advertisements delivered. */
  lemma {:induction false} YieldsExactlyToTheHeard(r: Router, s: Router, inputs: seq<Input>, ds: set<Datagram>)
    requires Coherent(r) && r.fsm.state == Master && Outranks(s, r) && AdvertsOf(s, ds)
    requires TicksAndPackets(inputs, ds) && NoMasterDown(r, inputs)
    requires forall d :: d in ds && Accepted(r, d).Some? ==> Delivers(inputs, d)
    ensures Exec(r, inputs).fsm.state == if HearsOneOf(r, ds) then Backup else Master
    decreases |inputs|
  {
    if inputs == [] {
    } else {
      var r' := Step(r, inputs[0]);
      TailOfTicksAndPackets(inputs, ds);
      StepKeepsCoherent(r, inputs[0]);
      MasterStep(r, s, inputs[0], ds);
      if r'.fsm.state == Backup {
        StaysBackup(r', s, inputs[1..], ds);
      } else {
        SameEars(r, r', ds);
        forall d | d in ds && Accepted(r', d).Some?
          ensures Delivers(inputs[1..], d)
        {
          assert Accepted(r', d) == Accepted(r, d);
          DeliversTail(inputs, d);
        }
        YieldsExactlyToTheHeard(r', s, inputs[1..], ds);
      }
    }
  }

  /** Over IPv4 a Master gives way to an agreeing sender that outranks it, however often it is
      sent to, exactly when the sender's address is on none of the Master's interfaces. */
  lemma {:induction false} YieldsOverIpv4Exactly(r: Router, s: Router, inputs: seq<Input>)
    requires Coherent(r) && r.fsm.state == Master && Outranks(s, r)
    requires |s.cfg.ipv4| <= MAX_IP_COUNT && Agrees(r.cfg, s.cfg)
    requires ListFits(r.cfg, s.cfg, V4Addresses(Addrs4(s.cfg.ipv4)))
    requires TicksAndPackets(inputs, {AdvertV4(s)}) && NoMasterDown(r, inputs) && Delivers(inputs, AdvertV4(s))
    ensures Exec(r, inputs).fsm.state == Backup <==> !IsLocal(r, IpV4(s.primaryV4))
  {
    AdvertV4Accepted(r, s);
    assert AdvertV4(s) in {AdvertV4(s)};
    YieldsExactlyToTheHeard(r, s, inputs, {AdvertV4(s)});
  }

  /** Over IPv6 it must moreover be a v3 router. */
  lemma {:induction false} YieldsOverIpv6Exactly(r: Router, s: Router, inputs: seq<Input>)
    requires Coherent(r) && r.fsm.state == Master && Outranks(s, r) && SendsV6(s)
    requires |s.cfg.ipv6| <= MAX_IP_COUNT && Agrees(r.cfg, s.cfg)
    requires ListFits(r.cfg, s.cfg, V6Addresses(Addrs6(s.cfg.ipv6)))
    requires TicksAndPackets(inputs, {AdvertV6(s)}) && NoMasterDown(r, inputs) && Delivers(inputs, AdvertV6(s))
    ensures Exec(r, inputs).fsm.state == Backup <==> r.cfg.version.V3? && !IsLocal(r, IpV6(s.primaryV6.value))
  {
    AdvertV6Accepted(r, s);
    assert AdvertV6(s) in {AdvertV6(s)};
    YieldsExactlyToTheHeard(r, s, inputs, {AdvertV6(s)});
  }

  // ----- Two routers on a link -----

  /** r gets the IPv6 advertisements of s whatever virtual addresses it holds. */
  predicate HearsV6(r: Router, s: Router) {
    && SendsV6(s) && r.cfg.version.V3? && |s.cfg.ipv6| <= MAX_IP_COUNT && Agrees(r.cfg, s.cfg)
    && ListFits(r.cfg, s.cfg, V6Addresses(Addrs6(s.cfg.ipv6)))
    && Foreign(r, IpV6(s.primaryV6.value))
  }

  /** Over neither family would r, holding its virtual addresses, hear s. */
  predicate Deaf(r: Router, s: Router) {
    !Hears(r, s) && !HearsV6(r, s)
  }

  lemma {:induction false} DeafOverIpv4(was: Router, m: Router, s: Router)
    requires SameStatic(was, m) && HasTakenUp(was, m) && !Hears(was, s)
    ensures Accepted(m, AdvertV4(s)) == None
  {
    AdvertV4Accepted(m, s);
  }

  lemma {:induction false} DeafOverIpv6(was: Router, m: Router, s: Router)
    requires SameStatic(was, m) && HasTakenUp(was, m) && !HearsV6(was, s) && SendsV6(s)
    ensures Accepted(m, AdvertV6(s)) == None
  {
    AdvertV6Accepted(m, s);
  }

  lemma {:induction false} DeafHearsNothing(was: Router, m: Router, s: Router, d: Datagram)
    requires SameStatic(was, m) && HasTakenUp(was, m) && Deaf(was, s) && Advert(d) in Adverts(s)
    ensures Accepted(m, d) == None
  {
    DeafOverIpv4(was, m, s);
    if SendsV6(s) {
      DeafOverIpv6(was, m, s);
    }
  }

  predicate BothMaster(n: Net) {
    |n| == 2 && n[0].fsm.state == Master && n[1].fsm.state == Master
  }

  /** A Master with its addresses up, having sent only its own advertisements. */
  predicate Entrenched(was: Router, r: Router) {
    && Coherent(r) && r.fsm.state == Master && SameStatic(was, r) && HasTakenUp(was, r)
    && SentOwn(r) && SourcesLocal(r)
  }

  lemma {:induction false} StaysEntrenched(was: Router, r: Router, input: Input)
    requires Entrenched(was, r) && !input.ShutdownNow? && Step(r, input).fsm.state == Master
    ensures Entrenched(was, Step(r, input))
  {
    StepKeepsCoherent(r, input);
    StepSpeaksAsMaster(r, input);
    SpeakingKeepsOwn(r, Step(r, input));
  }

  predicate Standoff(n: Net, m: Net) {
    |n| == |m| == 2 && Entrenched(n[0], m[0]) && Entrenched(n[1], m[1])
  }

  /** A Master is moved by no advertisement it does not hear, and by none of lower priority. */
  lemma {:induction false} UnmovedMaster(r: Router, s: Router, d: Datagram, now: Instant)
    requires Coherent(r) && r.fsm.state == Master && Advert(d) in Adverts(s)
    requires Accepted(r, d).Some? ==> s.cfg.priority < r.cfg.priority
    ensures Step(r, Packet(d, now)).fsm.state == Master
  {
    if Step(r, Packet(d, now)).fsm.state != Master {
      MasterYieldsOnly(r, Packet(d, now));
      AcceptedPriority(r, s, d);
    }
  }

  /** In a standoff no delivery of an advertisement makes either router give way. */
  lemma {:induction false} DeliveryKeepsMaster(n: Net, m: Net, i: nat, j: nat, d: Datagram, now: Instant)
    requires Standoff(n, m) && Deaf(n[0], n[1]) && n[0].cfg.priority < n[1].cfg.priority
    requires i < 2 && j < 2 && Advert(d) in Adverts(m[j])
    ensures Step(m[i], Packet(d, now)).fsm.state == Master
  {
    if i == j {
      NeverHearsItself(m[i], d);
    } else if i == 0 {
      SameAdverts(n[1], m[1]);
      DeafHearsNothing(n[0], m[0], n[1], d);
    }
    UnmovedMaster(m[i], m[j], d, now);
  }

  lemma {:induction false} SameAdverts(r: Router, s: Router)
    requires SameStatic(r, s)
    ensures Adverts(r) == Adverts(s)
  {
  }

  lemma {:induction false} StandoffStep(n: Net, m: Net, i: nat, input: Input)
    requires Standoff(n, m) && i < 2 && !input.ShutdownNow?
    requires input.Packet? ==> Step(m[i], input).fsm.state == Master
    ensures Standoff(n, m[i := Step(m[i], input)])
  {
    if Step(m[i], input).fsm.state != Master {
      MasterYieldsOnly(m[i], input);
    }
    StaysEntrenched(n[i], m[i], input);
  }

  lemma {:induction false} StandoffDelivery(n: Net, m: Net, i: nat, j: nat, k: nat, now: Instant)
    requires Standoff(n, m) && Deaf(n[0], n[1]) && n[0].cfg.priority < n[1].cfg.priority
    requires i < 2 && j < 2 && k < |m[j].sent| && m[j].sent[k].Advert?
    ensures Standoff(n, m[i := Step(m[i], Packet(m[j].sent[k].datagram, now))])
  {
    DeliveryKeepsMaster(n, m, i, j, m[j].sent[k].datagram, now);
    StandoffStep(n, m, i, Packet(m[j].sent[k].datagram, now));
  }

  lemma {:induction false} StandoffKept(n: Net, m: Net, a: Action)
    requires Standoff(n, m) && Deaf(n[0], n[1]) && n[0].cfg.priority < n[1].cfg.priority
    ensures Standoff(n, Act(m, a))
  {
    match a
    case Start(i, now) =>
      if i < 2 {
        StandoffStep(n, m, i, StartupAt(now));
      }
    case Poll(i, now) =>
      if i < 2 {
        StandoffStep(n, m, i, TickAt(now));
      }
    case Deliver(i, j, k, now) =>
      if i < 2 && j < 2 && k < |m[j].sent| && m[j].sent[k].Advert? {
        StandoffDelivery(n, m, i, j, k, now);
      }
    case Damage(_, _, _, _, _, _) =>
      DamageIsIdle(m, a);
  }

  lemma {:induction false} StandoffLasts(n: Net, m: Net, actions: seq<Action>)
    requires Standoff(n, m) && Deaf(n[0], n[1]) && n[0].cfg.priority < n[1].cfg.priority
    ensures Standoff(n, Run(m, actions))
    decreases |actions|
  {
    if actions == [] {
    } else {
      StandoffKept(n, m, actions[0]);
      StandoffLasts(n, Act(m, actions[0]), actions[1..]);
    }
  }

  /** From here on both routers are Master, whatever happens. */
  ghost predicate Lasting(n: Net, before: seq<Action>) {
    forall after: seq<Action> | InOrder(before + after) :: BothMaster(Run(n, before + after))
  }

  lemma {:induction false} StartInOrder(mid: Instant, late: Instant)
    requires mid <= late
    ensures InOrder([Start(0, 0), Poll(0, mid)] + [Start(1, mid), Poll(1, late)])
  {
  }

  lemma {:induction false} RisenIsEntrenched(n: Net, m: Net, actions: seq<Action>, i: nat)
    requires Quiescent(n) && i < |n| && m == Run(n, actions) && Risen(n[i], m[i])
    ensures Entrenched(n[i], m[i])
  {
    RunKeepsSound(n, n, actions);
  }

  /** Coherent, at most its own addresses added, its own advertisements sent. */
  predicate Sound(was: Router, r: Router) {
    Coherent(r) && Later(was, r) && SentOwn(r) && SourcesLocal(r)
  }

  ghost predicate AllSound(n: Net, m: Net) {
    |n| == |m| && forall i :: 0 <= i < |n| ==> Sound(n[i], m[i])
  }

  lemma {:induction false} StepKeepsSound(was: Router, r: Router, input: Input)
    requires Sound(was, r) && !input.ShutdownNow?
    ensures Sound(was, Step(r, input))
  {
    StepKeepsCoherent(r, input);
    StepSpeaksAsMaster(r, input);
    SpeakingKeepsOwn(r, Step(r, input));
    StepKeepsLinks(r, input);
  }

  /** r' has at most the configured addresses more on its mac-vlans. */
  predicate LinksWithin(r: Router, r': Router) {
    r'.linkV4 <= r.linkV4 + Nets4(r.cfg) && r'.linkV6 <= r.linkV6 + Nets6(r.cfg)
  }

  lemma {:induction false} NotifyKeepsLinks(r: Router, event: Event, now: Instant)
    ensures LinksWithin(r, Notify(r, event, now))
  {
  }

  lemma {:induction false} ReactKeepsLinks(r: Router, p: VrrpPacket, now: Instant)
    ensures LinksWithin(r, React(r, p, now))
  {
  }

  lemma {:induction false} StepKeepsLinks(r: Router, input: Input)
    ensures LinksWithin(r, Step(r, input))
  {
    match input
    case StartupAt(now) => NotifyKeepsLinks(r, Startup, now);
    case ShutdownNow => NotifyKeepsLinks(r, Shutdown, 0);
    case TickAt(now) => NotifyKeepsLinks(r, MasterDown, now);
    case Packet(d, now) =>
      if Accepted(r, d).Some? {
        ReactKeepsLinks(r, Accepted(r, d).value, now);
      }
  }

  lemma {:induction false} ActKeepsSound(n: Net, m: Net, a: Action)
    requires AllSound(n, m)
    ensures AllSound(n, Act(m, a))
  {
    match a
    case Start(i, now) =>
      if i < |m| {
        StepKeepsSound(n[i], m[i], StartupAt(now));
      }
    case Poll(i, now) =>
      if i < |m| {
        StepKeepsSound(n[i], m[i], TickAt(now));
      }
    case Deliver(i, j, k, now) =>
      if i < |m| && j < |m| && k < |m[j].sent| && m[j].sent[k].Advert? {
        StepKeepsSound(n[i], m[i], Packet(m[j].sent[k].datagram, now));
      }
    case Damage(_, _, _, _, _, _) =>
      DamageIsIdle(m, a);
  }

  lemma {:induction false} RunKeepsSound(n: Net, m: Net, actions: seq<Action>)
    requires AllSound(n, m)
    ensures AllSound(n, Run(m, actions))
    decreases |actions|
  {
    if actions == [] {
    } else {
      ActKeepsSound(n, m, actions[0]);
      RunKeepsSound(n, Act(m, actions[0]), actions[1..]);
    }
  }

  /** The run into a standoff: both routers come up, and the lower one does not hear the higher. */
  lemma {:induction false} StandoffRun(n: Net) returns (before: seq<Action>)
    requires Quiescent(n) && |n| == 2 && n[0].cfg.priority < n[1].cfg.priority && Deaf(n[0], n[1])
    ensures InOrder(before) && Lasting(n, before)
  {
    var mid, late;
    mid, late, before := BringUpBoth(n, 0, 1);
    var m := Run(n, before);
    StartInOrder(mid, late);
    RisenIsEntrenched(n, m, before, 0);
    RisenIsEntrenched(n, m, before, 1);
    forall after: seq<Action> | InOrder(before + after)
      ensures BothMaster(Run(n, before + after))
    {
      RunConcat(n, before, after);
      StandoffLasts(n, m, after);
    }
  }

  /** An instant past every action and past the deadline. */
  lemma {:induction false} LaterThan(actions: seq<Action>, deadline: Instant) returns (late: Instant)
    ensures late > deadline && forall k :: 0 <= k < |actions| ==> actions[k].now <= late
  {
    if actions == [] {
      late := deadline + 1;
    } else {
      late := LaterThan(actions[1..], if actions[0].now > deadline then actions[0].now else deadline);
      assert forall k :: 0 < k < |actions| ==> actions[k] == actions[1..][k - 1];
    }
  }

  /** An advertisement the lower router would hear, and where it is once the higher one advertises. */
  lemma {:induction false} HeardAdvert(was: Router, r: Router, s: Router) returns (k: nat)
    requires Later(was, r) && !Deaf(was, s)
    ensures k < |Adverts(s)| && Adverts(s)[k].Advert? && Accepted(r, Adverts(s)[k].datagram).Some?
  {
    if Hears(was, s) {
      k := 0;
      HearsLater(was, r, s);
    } else {
      k := 1;
      AdvertV6Accepted(r, s);
    }
  }

  /** However the routers became Masters: the higher one's next advertisement ends it. */
  lemma {:induction false} HearingEndsStandoff(n: Net, before: seq<Action>)
    requires Quiescent(n) && |n| == 2 && n[0].cfg.priority < n[1].cfg.priority && !Deaf(n[0], n[1])
    requires InOrder(before)
    ensures !Lasting(n, before)
  {
    var m := Run(n, before);
    RunKeepsSound(n, n, before);
    assert before + [] == before;
    if BothMaster(m) {
      var late := LaterThan(before, m[1].fsm.timer.waitingFor.value);
      var k := HeardAdvert(n[0], m[0], m[1]);
      var poll, deliver := Poll(1, late), Deliver(0, 1, |m[1].sent| + k, late);
      RunTwo(m, poll, deliver);
      PolledThenHeard(m, k, late);
      RunConcat(n, before, [poll, deliver]);
      ExtendsInOrder(before, poll, deliver);
      assert !BothMaster(Run(n, before + [poll, deliver]));
    }
  }

  lemma {:induction false} RunTwo(n: Net, a: Action, b: Action)
    ensures Run(n, [a, b]) == Act(Act(n, a), b)
  {
    assert [a, b] == [a] + [b];
    RunConcat(n, [a], [b]);
    RunOne(n, a);
    RunOne(Act(n, a), b);
  }

  lemma {:induction false} ExtendsInOrder(before: seq<Action>, a: Action, b: Action)
    requires InOrder(before) && a.now <= b.now
    requires forall k :: 0 <= k < |before| ==> before[k].now <= a.now
    ensures InOrder(before + [a, b])
  {
  }

  lemma {:induction false} PolledThenHeard(m: Net, k: nat, late: Instant)
    requires BothMaster(m) && Coherent(m[0]) && Coherent(m[1]) && m[0].cfg.priority < m[1].cfg.priority
    requires late > m[1].fsm.timer.waitingFor.value
    requires k < |Adverts(m[1])| && Adverts(m[1])[k].Advert?
    requires Accepted(m[0], Adverts(m[1])[k].datagram).Some?
    ensures Act(Act(m, Poll(1, late)), Deliver(0, 1, |m[1].sent| + k, late))[0].fsm.state == Backup
  {
    var m' := Act(m, Poll(1, late));
    OverdueMasterAdvertises(m[1], late);
    assert m'[1].sent[|m[1].sent| + k] == Adverts(m[1])[k];
    HigherUnseats(m[0], m[1], Adverts(m[1])[k].datagram, late);
  }

  lemma {:induction false} OverdueMasterAdvertises(r: Router, late: Instant)
    requires Coherent(r) && r.fsm.state == Master && late > r.fsm.timer.waitingFor.value
    ensures Step(r, TickAt(late)).sent == r.sent + Adverts(r)
  {
  }

  lemma {:induction false} HigherUnseats(r: Router, s: Router, d: Datagram, now: Instant)
    requires r.fsm.state == Master && r.cfg.priority < s.cfg.priority
    requires Advert(d) in Adverts(s) && Accepted(r, d).Some?
    ensures Step(r, Packet(d, now)).fsm.state == Backup
  {
    AcceptedPriority(r, s, d);
  }

  /** Two routers of different priority can come to be both Master for good, whatever is then
      delivered, exactly when the lower one, with its virtual addresses up, hears the higher
      one over neither family. */
  lemma {:induction false} SplitBrainExactly(n: Net)
    requires Quiescent(n) && |n| == 2 && n[0].cfg.priority < n[1].cfg.priority
    ensures (exists before: seq<Action> :: InOrder(before) && Lasting(n, before)) <==> Deaf(n[0], n[1])
  {
    if Deaf(n[0], n[1]) {
      var before := StandoffRun(n);
    } else {
      forall before: seq<Action> | InOrder(before)
        ensures !Lasting(n, before)
      {
        HearingEndsStandoff(n, before);
      }
    }
  }

  /** An address owner sends from a virtual address. Over IPv4 alone, no other router that is
      Master with that address up ever hears it, and both stay Master. */
  lemma {:induction false} OwnerIsNeverHeard(n: Net) returns (before: seq<Action>)
    requires Quiescent(n) && |n| == 2 && n[0].cfg.priority < n[1].cfg.priority
    requires n[1].primaryV4 in Addrs4(n[0].cfg.ipv4) && !SendsV6(n[1])
    ensures InOrder(before) && Lasting(n, before)
  {
    var i :| 0 <= i < |n[0].cfg.ipv4| && Addrs4(n[0].cfg.ipv4)[i] == n[1].primaryV4;
    assert n[0].cfg.ipv4[i] in Nets4(n[0].cfg);
    before := StandoffRun(n);
  }
}
