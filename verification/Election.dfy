/** Convergence of the election: rounds in which every Master is heard by every other router
    leave only the router of highest priority as Master. */
module Election {
  import opened Lists
  import opened Machine
  import opened RouterProofs
  import opened Network

  predicate Running(r: Router) {
    Coherent(r) && r.fsm.state != Init && r.cfg.priority != 0
  }

  predicate WellSet(n: Net) {
    && (forall i :: 0 <= i < |n| ==> Running(n[i]))
    && (forall i, j :: 0 <= i < |n| && 0 <= j < |n| && i != j ==>
          Hears(n[i], n[j]) && n[i].cfg.priority != n[j].cfg.priority)
  }

  // ----- One router's part of a round -----

  /** The packet is an advertisement of a Master other than i. */
  ghost predicate FromOtherMaster(n: Net, i: nat, d: Datagram) {
    exists j :: 0 <= j < |n| && SpeaksAt(n, i, j, d)
  }

  predicate SpeaksAt(n: Net, i: nat, j: nat, d: Datagram)
    requires 0 <= j < |n|
  {
    j != i && n[j].fsm.state == Master && Advert(d) in Adverts(n[j])
  }

  predicate Delivers(inputs: seq<Input>, d: Datagram) {
    exists k :: 0 <= k < |inputs| && inputs[k].Packet? && inputs[k].datagram == d
  }

  predicate Fires(r: Router, input: Input) {
    r.fsm.state == Backup && r.fsm.timer.waitingFor.Some? && LateTick(r.fsm.timer.waitingFor.value, input)
  }

  /** No Backup reaches its master-down deadline at any tick. */
  predicate NoMasterDown(r: Router, inputs: seq<Input>)
    decreases |inputs|
  {
    inputs == [] || (!Fires(r, inputs[0]) && NoMasterDown(Step(r, inputs[0]), inputs[1..]))
  }

  /** Ticks and advertisements of the round's Masters, each Master heard at least once, in
      any order and number. */
  ghost predicate RoundInputs(n: Net, i: nat, inputs: seq<Input>)
    requires i < |n|
  {
    && (forall k :: 0 <= k < |inputs| ==>
          inputs[k].TickAt? || (inputs[k].Packet? && FromOtherMaster(n, i, inputs[k].datagram)))
    && (forall j :: 0 <= j < |n| && j != i && n[j].fsm.state == Master ==> Delivers(inputs, AdvertV4(n[j])))
    && NoMasterDown(n[i], inputs)
  }

  ghost predicate RoundOf(n: Net, i: nat, r': Router)
    requires i < |n|
  {
    exists inputs :: RoundInputs(n, i, inputs) && r' == Exec(n[i], inputs)
  }

  ghost predicate Round(n: Net, n': Net) {
    |n'| == |n| && forall i :: 0 <= i < |n| ==> RoundOf(n, i, n'[i])
  }

  // ----- What hearing does to one router -----

  lemma {:induction false} StepKeepsRunning(r: Router, input: Input)
    requires Running(r) && (input.TickAt? || input.Packet?)
    ensures Running(Step(r, input)) && Later(r, Step(r, input))
  {
    StepKeepsCoherent(r, input);
    StepSpeaksAsMaster(r, input);
  }

  /** The input is a tick that does not fire, or an advertisement of another Master. */
  ghost predicate RoundInput(n: Net, i: nat, r: Router, input: Input)
    requires i < |n|
  {
    && Running(r) && Later(n[i], r) && !Fires(r, input)
    && (input.TickAt? || (input.Packet? && FromOtherMaster(n, i, input.datagram)))
  }

  ghost predicate OthersAbove(n: Net, i: nat)
    requires i < |n|
  {
    forall j :: 0 <= j < |n| && j != i && n[j].fsm.state == Master ==> n[j].cfg.priority > n[i].cfg.priority
  }

  ghost predicate OthersBelow(n: Net, i: nat)
    requires i < |n|
  {
    forall j :: 0 <= j < |n| && j != i && n[j].fsm.state == Master ==>
      0 < n[j].cfg.priority < n[i].cfg.priority
  }

  lemma {:induction false} SpeakerPriority(n: Net, i: nat, r: Router, d: Datagram) returns (j: nat)
    requires i < |n| && FromOtherMaster(n, i, d)
    ensures j < |n| && SpeaksAt(n, i, j, d)
    ensures Accepted(r, d).Some? ==> Accepted(r, d).value.priority == n[j].cfg.priority
  {
    j :| 0 <= j < |n| && SpeaksAt(n, i, j, d);
    if Accepted(r, d).Some? {
      AcceptedPriority(r, n[j], d);
    }
  }

  /** Below every Master: a Backup stays one, and anything heard makes it one. */
  lemma {:induction false} StepBelowMasters(n: Net, i: nat, r: Router, input: Input)
    requires i < |n| && OthersAbove(n, i) && RoundInput(n, i, r, input)
    ensures r.fsm.state == Backup ==> Step(r, input).fsm.state == Backup
    ensures input.Packet? && Accepted(r, input.datagram).Some? ==> Step(r, input).fsm.state == Backup
  {
    if input.Packet? {
      var j := SpeakerPriority(n, i, r, input.datagram);
    }
  }

  /** Above every Master: a Master stays one, and anything heard makes a preempting Backup one. */
  lemma {:induction false} StepAboveMasters(n: Net, i: nat, r: Router, input: Input)
    requires i < |n| && OthersBelow(n, i) && RoundInput(n, i, r, input)
    ensures r.fsm.state == Master ==> Step(r, input).fsm.state == Master
    ensures input.Packet? && Accepted(r, input.datagram).Some? && r.cfg.preempt
        ==> Step(r, input).fsm.state == Master
  {
    if input.Packet? {
      var j := SpeakerPriority(n, i, r, input.datagram);
    }
  }

  /** Ticks that do not fire and advertisements of the other Masters, from state r of router i. */
  ghost predicate Hearing(n: Net, i: nat, r: Router, inputs: seq<Input>)
    requires i < |n|
  {
    && Running(r) && Later(n[i], r) && NoMasterDown(r, inputs)
    && (forall k :: 0 <= k < |inputs| ==>
          inputs[k].TickAt? || (inputs[k].Packet? && FromOtherMaster(n, i, inputs[k].datagram)))
  }

  lemma {:induction false} HearingTail(n: Net, i: nat, r: Router, inputs: seq<Input>)
    requires i < |n| && Hearing(n, i, r, inputs) && inputs != []
    ensures RoundInput(n, i, r, inputs[0])
    ensures Hearing(n, i, Step(r, inputs[0]), inputs[1..])
  {
    StepKeepsRunning(r, inputs[0]);
    assert forall k :: 0 <= k < |inputs| - 1 ==> inputs[1..][k] == inputs[k + 1];
  }

  lemma {:induction false} DeliversTail(inputs: seq<Input>, d: Datagram)
    requires Delivers(inputs, d) && !(inputs[0].Packet? && inputs[0].datagram == d)
    ensures Delivers(inputs[1..], d)
  {
  }

  lemma {:induction false} HearingKeepsRunning(n: Net, i: nat, r: Router, inputs: seq<Input>)
    requires i < |n| && Hearing(n, i, r, inputs)
    ensures Running(Exec(r, inputs)) && Later(n[i], Exec(r, inputs))
    decreases |inputs|
  {
    if inputs == [] {
    } else {
      HearingTail(n, i, r, inputs);
      HearingKeepsRunning(n, i, Step(r, inputs[0]), inputs[1..]);
    }
  }

  /** Hearing one of the Masters above it, in any order with the others, leaves i a Backup. */
  lemma {:induction false} BelowMastersEndsBackup(n: Net, i: nat, r: Router, inputs: seq<Input>, j: nat)
    requires i < |n| && OthersAbove(n, i) && Hearing(n, i, r, inputs)
    requires j < |n| && Hears(n[i], n[j])
    requires r.fsm.state == Backup || Delivers(inputs, AdvertV4(n[j]))
    ensures Exec(r, inputs).fsm.state == Backup
    decreases |inputs|
  {
    if inputs == [] {
    } else {
      HearingTail(n, i, r, inputs);
      StepBelowMasters(n, i, r, inputs[0]);
      HearsLater(n[i], r, n[j]);
      if Step(r, inputs[0]).fsm.state != Backup {
        DeliversTail(inputs, AdvertV4(n[j]));
      }
      BelowMastersEndsBackup(n, i, Step(r, inputs[0]), inputs[1..], j);
    }
  }

  lemma {:induction false} AboveMastersEndsMaster(n: Net, i: nat, r: Router, inputs: seq<Input>, j: nat)
    requires i < |n| && OthersBelow(n, i) && Hearing(n, i, r, inputs)
    requires j < |n|
    requires r.fsm.state == Master
          || (r.cfg.preempt && Hears(n[i], n[j]) && Delivers(inputs, AdvertV4(n[j])))
    ensures Exec(r, inputs).fsm.state == Master
    decreases |inputs|
  {
    if inputs == [] {
    } else {
      HearingTail(n, i, r, inputs);
      StepAboveMasters(n, i, r, inputs[0]);
      if Step(r, inputs[0]).fsm.state != Master {
        HearsLater(n[i], r, n[j]);
        DeliversTail(inputs, AdvertV4(n[j]));
      }
      AboveMastersEndsMaster(n, i, Step(r, inputs[0]), inputs[1..], j);
    }
  }

  // ----- Rounds -----

  ghost predicate IsTop(n: Net, t: nat) {
    t < |n| && forall j :: 0 <= j < |n| && j != t ==> n[j].cfg.priority < n[t].cfg.priority
  }

  lemma {:induction false} RoundPart(n: Net, n': Net, i: nat) returns (inputs: seq<Input>)
    requires Round(n, n') && i < |n|
    ensures RoundInputs(n, i, inputs) && n'[i] == Exec(n[i], inputs)
  {
    assert RoundOf(n, i, n'[i]);
    inputs :| RoundInputs(n, i, inputs) && n'[i] == Exec(n[i], inputs);
  }

  lemma {:induction false} RoundKeepsWellSet(n: Net, n': Net)
    requires WellSet(n) && Round(n, n')
    ensures WellSet(n') && SameStatics(n, n')
  {
    forall i | 0 <= i < |n|
      ensures Running(n'[i]) && Later(n[i], n'[i])
    {
      var inputs := RoundPart(n, n', i);
      HearingKeepsRunning(n, i, n[i], inputs);
    }
    forall i, j | 0 <= i < |n| && 0 <= j < |n| && i != j
      ensures Hears(n'[i], n'[j])
    {
      assert Hears(n[i], n[j]);
      HearsLater(n[i], n'[i], n[j]);
    }
  }

  /** The top router keeps its mastership; as a preempting Backup it gains it from any Master. */
  lemma {:induction false} RoundRaisesTop(n: Net, n': Net, t: nat)
    requires WellSet(n) && Round(n, n') && IsTop(n, t)
    requires n[t].fsm.state == Master || (n[t].cfg.preempt && exists j :: 0 <= j < |n| && n[j].fsm.state == Master)
    ensures n'[t].fsm.state == Master
  {
    var inputs := RoundPart(n, n', t);
    var j := if n[t].fsm.state == Master then t else var j :| 0 <= j < |n| && n[j].fsm.state == Master; j;
    assert OthersBelow(n, t);
    AboveMastersEndsMaster(n, t, n[t], inputs, j);
  }

  predicate InferiorsAreBackup(n: Net, i: nat)
    requires i < |n|
  {
    forall j :: 0 <= j < |n| && n[j].cfg.priority < n[i].cfg.priority ==> n[j].fsm.state == Backup
  }

  lemma {:induction false} MastersAreAbove(n: Net, i: nat)
    requires WellSet(n) && i < |n| && InferiorsAreBackup(n, i)
    ensures OthersAbove(n, i)
  {
  }

  /** A router all of whose inferiors are Backup is Backup after a round, if the top is Master. */
  lemma {:induction false} RoundLowers(n: Net, n': Net, t: nat, i: nat)
    requires WellSet(n) && Round(n, n') && IsTop(n, t) && n[t].fsm.state == Master && i < |n| && i != t
    requires InferiorsAreBackup(n, i)
    ensures n'[i].fsm.state == Backup
  {
    var inputs := RoundPart(n, n', i);
    MastersAreAbove(n, i);
    assert Hears(n[i], n[t]);
    BelowMastersEndsBackup(n, i, n[i], inputs, t);
  }

  /** The routers of lower priority. */
  function Inferiors(n: Net, i: nat): set<nat>
    requires i < |n|
  {
    set j: nat | j < |n| && n[j].cfg.priority < n[i].cfg.priority
  }

  /** The k routers of lowest priority, the top apart, are Backup. */
  predicate LowestAreBackup(n: Net, t: nat, k: nat) {
    forall i :: 0 <= i < |n| && i != t && |Inferiors(n, i)| < k ==> n[i].fsm.state == Backup
  }

  lemma {:induction false} FewerInferiors(n: Net, i: nat, j: nat)
    requires i < |n| && j < |n| && n[j].cfg.priority < n[i].cfg.priority
    ensures |Inferiors(n, j)| < |Inferiors(n, i)|
  {
    var a, b := Inferiors(n, j), Inferiors(n, i);
    assert a <= b - {j} && j in b;
    SubsetSize(a, b - {j});
  }

  function Range(n: nat): (s: set<nat>)
    ensures |s| == n && forall i: nat :: i in s <==> i < n
  {
    if n == 0 then {} else Range(n - 1) + {n - 1}
  }

  /** No router but the top has everyone else below it. */
  lemma {:induction false} InferiorsBound(n: Net, t: nat, i: nat)
    requires IsTop(n, t) && i < |n| && i != t
    ensures |Inferiors(n, i)| <= |n| - 2
  {
    var all := Range(|n|);
    assert Inferiors(n, i) <= all - {i, t};
    SubsetSize(Inferiors(n, i), all - {i, t});
    assert |all - {i, t}| == |all| - 2 by {
      assert all - {i, t} == (all - {i}) - {t};
    }
  }

  lemma {:induction false} InferiorsAreLowest(n: Net, t: nat, k: nat, i: nat)
    requires IsTop(n, t) && LowestAreBackup(n, t, k) && i < |n| && |Inferiors(n, i)| < k + 1
    ensures InferiorsAreBackup(n, i)
  {
    forall j | 0 <= j < |n| && n[j].cfg.priority < n[i].cfg.priority
      ensures n[j].fsm.state == Backup
    {
      FewerInferiors(n, i, j);
    }
  }

  lemma {:induction false} RoundLowersOneMore(n: Net, n': Net, t: nat, k: nat)
    requires WellSet(n) && Round(n, n') && IsTop(n, t) && n[t].fsm.state == Master
    requires LowestAreBackup(n, t, k)
    ensures LowestAreBackup(n', t, k + 1)
  {
    RoundKeepsWellSet(n, n');
    forall i | 0 <= i < |n| && i != t && |Inferiors(n', i)| < k + 1
      ensures n'[i].fsm.state == Backup
    {
      assert Inferiors(n', i) == Inferiors(n, i);
      InferiorsAreLowest(n, t, k, i);
      RoundLowers(n, n', t, i);
    }
  }

  ghost predicate Rounds(ns: seq<Net>) {
    ns != [] && forall k :: 0 <= k < |ns| - 1 ==> Round(ns[k], ns[k + 1])
  }

  /** With the top router Master, k rounds leave the k lowest routers Backup. */
  lemma {:induction false} AfterKRounds(ns: seq<Net>, t: nat, k: nat)
    requires Rounds(ns) && WellSet(ns[0]) && IsTop(ns[0], t) && ns[0][t].fsm.state == Master
    requires k < |ns|
    ensures WellSet(ns[k]) && SameStatics(ns[0], ns[k]) && IsTop(ns[k], t)
    ensures ns[k][t].fsm.state == Master && LowestAreBackup(ns[k], t, k)
  {
    if k == 0 {
    } else {
      AfterKRounds(ns, t, k - 1);
      assert Round(ns[k - 1], ns[k - 1 + 1]);
      RoundKeepsWellSet(ns[k - 1], ns[k]);
      RoundRaisesTop(ns[k - 1], ns[k], t);
      RoundLowersOneMore(ns[k - 1], ns[k], t, k - 1);
    }
  }

  predicate OnlyMaster(n: Net, t: nat) {
    t < |n| && forall i :: 0 <= i < |n| ==>
      (n[i].fsm.state == Master <==> i == t) && (i != t ==> n[i].fsm.state == Backup)
  }

  /** Election convergence: among n routers whose top one is Master, from n - 1 rounds on it is
      the only Master, for ever. */
  lemma {:induction false} ElectionConverges(ns: seq<Net>, t: nat, k: nat)
    requires Rounds(ns) && WellSet(ns[0]) && IsTop(ns[0], t) && ns[0][t].fsm.state == Master
    requires |ns[0]| - 1 <= k < |ns|
    ensures OnlyMaster(ns[k], t)
  {
    AfterKRounds(ns, t, k);
    forall i | 0 <= i < |ns[k]| && i != t
      ensures ns[k][i].fsm.state == Backup
    {
      InferiorsBound(ns[k], t, i);
    }
  }

  /** A preempting top router that starts as Backup takes one round more. */
  lemma {:induction false} PreemptiveElectionConverges(ns: seq<Net>, t: nat, k: nat)
    requires Rounds(ns) && WellSet(ns[0]) && IsTop(ns[0], t) && ns[0][t].cfg.preempt
    requires exists j :: 0 <= j < |ns[0]| && ns[0][j].fsm.state == Master
    requires |ns[0]| <= k < |ns|
    ensures OnlyMaster(ns[k], t)
  {
    assert Round(ns[0], ns[0 + 1]);
    RoundKeepsWellSet(ns[0], ns[1]);
    RoundRaisesTop(ns[0], ns[1], t);
    var rest := ns[1..];
    forall i | 0 <= i < |rest| - 1
      ensures Round(rest[i], rest[i + 1])
    {
      assert Round(ns[i + 1], ns[i + 1 + 1]);
    }
    ElectionConverges(rest, t, k - 1);
  }
}
