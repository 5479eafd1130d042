/** A lasting Master and a Backup in real time: the Master is polled at most a second apart,
    no advertisement is lost, and each arrives within a bounded delay, in any order. */
module Heartbeat {
  import opened Wire
  import opened Timers
  import opened Machine
  import opened RouterProofs
  import opened Network

  /** The two routers, the time, the Master's last poll, when it sent each advertisement, and
      which of these have arrived. */
  datatype Pair = Pair(
    master: Router,
    backup: Router,
    now: Instant,
    lastPoll: Instant,
    sends: seq<Instant>,
    arrived: set<nat>)

  datatype Move = PollMaster(t: Instant) | PollBackup(t: Instant) | Arrive(k: nat, t: Instant)

  /** Time does not go back, the Master's next poll is never overdue, nor is an advertisement. */
  predicate Timely(s: Pair, m: Move, delay: nat) {
    && s.now <= m.t <= s.lastPoll + SECOND
    && (forall k :: 0 <= k < |s.sends| && k !in s.arrived ==> m.t <= s.sends[k] + delay)
    && (m.Arrive? ==> m.k < |s.sends|)
  }

  function Play(s: Pair, m: Move): Pair {
    match m
    case PollMaster(t) =>
      var master := Tick(s.master, t);
      Pair(master, s.backup, t, t, if |master.sent| > |s.master.sent| then s.sends + [t] else s.sends, s.arrived)
    case PollBackup(t) => s.(backup := Tick(s.backup, t), now := t)
    case Arrive(k, t) =>
      s.(backup := Receive(s.backup, AdvertV4(s.master), t), now := t, arrived := s.arrived + {k})
  }

  predicate TimelyRun(s: Pair, moves: seq<Move>, delay: nat)
    decreases |moves|
  {
    moves == [] || (Timely(s, moves[0], delay) && TimelyRun(Play(s, moves[0]), moves[1..], delay))
  }

  function PlayAll(s: Pair, moves: seq<Move>): Pair
    decreases |moves|
  {
    if moves == [] then s else PlayAll(Play(s, moves[0]), moves[1..])
  }

  function Interval(s: Pair): nat {
    AdvertUnits(s.master.cfg.advertInterval) * UNIT_NS
  }

  function Patience(s: Pair): nat {
    MasterDownInterval(s.backup.cfg) * UNIT_NS
  }

  /** The Backup hears the Master, keeps to it, and both use one interval. */
  predicate Paired(s: Pair) {
    && Hears(s.backup, s.master)
    && s.master.cfg.priority != 0
    && (s.backup.cfg.preempt ==> s.master.cfg.priority >= s.backup.cfg.priority)
    && s.master.cfg.advertInterval == s.backup.cfg.advertInterval
  }

  /** The Master was polled and sent its first advertisement, and the Backup has just heard it. */
  predicate HeardOne(s: Pair) {
    && Paired(s) && Coherent(s.master) && Coherent(s.backup)
    && s.master.fsm.state == Master && s.backup.fsm.state == Backup
    && |s.sends| == 1 && s.sends[0] == s.lastPoll <= s.now <= s.lastPoll + SECOND && s.arrived == {0}
    && s.master.fsm.timer.waitingFor == Some(s.lastPoll + Interval(s))
    && s.backup.fsm.timer.waitingFor == Some(s.now + Patience(s))
  }

  /** The same, the first advertisement having taken no time. */
  predicate Synced(s: Pair) {
    HeardOne(s) && s.now == s.lastPoll
  }

  // ----- The invariant of a timely run -----

  predicate MasterSide(s: Pair) {
    var last := |s.sends| - 1;
    && Coherent(s.master) && s.master.fsm.state == Master && s.sends != []
    && s.master.fsm.timer.waitingFor == Some(s.sends[last] + Interval(s))
    && s.sends[last] <= s.lastPoll <= s.sends[last] + Interval(s)
    && s.lastPoll <= s.now <= s.lastPoll + SECOND
    && (forall k :: 0 <= k < last ==> s.sends[k + 1] <= s.sends[k] + Interval(s) + SECOND)
    && (forall k :: 0 <= k <= last ==> s.sends[k] <= s.now)
  }

  predicate BackupSide(s: Pair) {
    && Coherent(s.backup) && s.backup.fsm.state == Backup && 0 in s.arrived
    && (forall k :: k in s.arrived ==> k < |s.sends|)
    && (forall k :: 0 <= k < |s.sends| && k in s.arrived ==>
          s.backup.fsm.timer.waitingFor.value >= s.sends[k] + Patience(s))
  }

  /** All advertisements up to some one arrived; nothing later than the gap that follows it
      has been waited for. */
  lemma {:induction false} NotYetDue(s: Pair, m: Move, delay: nat)
    requires MasterSide(s) && BackupSide(s) && Timely(s, m, delay)
    requires Interval(s) + SECOND + delay <= Patience(s)
    ensures m.t <= s.backup.fsm.timer.waitingFor.value
  {
    if exists k :: 0 <= k < |s.sends| && k !in s.arrived {
      var k :| 0 <= k < |s.sends| && k !in s.arrived;
      var p := FirstPending(s, k);
      assert s.sends[p - 1 + 1] <= s.sends[p - 1] + Interval(s) + SECOND;
    }
  }

  /** The first advertisement still under way, with the one before it arrived. */
  lemma {:induction false} FirstPending(s: Pair, k: nat) returns (p: nat)
    requires 0 in s.arrived && k !in s.arrived
    ensures 0 < p <= k && p !in s.arrived && p - 1 in s.arrived
  {
    p := k;
    if k - 1 !in s.arrived {
      p := FirstPending(s, k - 1);
    }
  }

  lemma {:induction false} PollingMaster(r: Router, t: Instant)
    requires Coherent(r) && r.fsm.state == Master
    ensures var r' := Tick(r, t);
            && Coherent(r') && SameStatic(r, r') && r'.fsm.state == Master
            && (if t > r.fsm.timer.waitingFor.value
                then |r'.sent| > |r.sent|
                     && r'.fsm.timer.waitingFor == Some(After(t, AdvertUnits(r.cfg.advertInterval)))
                else r' == r)
  {
  }

  /** A poll past the deadline sends once more; any other poll only takes time. */
  lemma {:induction false} PollMasterEffect(s: Pair, t: Instant)
    requires MasterSide(s)
    ensures var s' := Play(s, PollMaster(t));
            && Coherent(s'.master) && SameStatic(s.master, s'.master) && s'.master.fsm.state == Master
            && (if t > s.sends[|s.sends| - 1] + Interval(s)
                then s'.sends == s.sends + [t] && s'.master.fsm.timer.waitingFor == Some(t + Interval(s))
                else s'.sends == s.sends && s'.master == s.master)
  {
    PollingMaster(s.master, t);
  }

  lemma {:induction false} PollMasterKeepsMasterSide(s: Pair, t: Instant, delay: nat)
    requires MasterSide(s) && Timely(s, PollMaster(t), delay)
    ensures MasterSide(Play(s, PollMaster(t))) && Interval(Play(s, PollMaster(t))) == Interval(s)
  {
    PollMasterEffect(s, t);
    assert Interval(Play(s, PollMaster(t))) == Interval(s);
  }

  lemma {:induction false} PollMasterKeeps(s: Pair, t: Instant, delay: nat)
    requires Paired(s) && MasterSide(s) && BackupSide(s) && Timely(s, PollMaster(t), delay)
    ensures var s' := Play(s, PollMaster(t));
            Paired(s') && MasterSide(s') && BackupSide(s')
  {
    PollMasterKeepsMasterSide(s, t, delay);
    PollMasterEffect(s, t);
    assert Hears(s.backup, Play(s, PollMaster(t)).master);
  }

  lemma {:induction false} PollBackupKeeps(s: Pair, t: Instant, delay: nat)
    requires Paired(s) && MasterSide(s) && BackupSide(s) && Timely(s, PollBackup(t), delay)
    requires t <= s.backup.fsm.timer.waitingFor.value
    ensures var s' := Play(s, PollBackup(t));
            Paired(s') && MasterSide(s') && BackupSide(s')
  {
  }

  /** A Backup that keeps to the Master starts its full wait again at every advertisement. */
  lemma {:induction false} AdvertResets(s: Pair, t: Instant)
    requires Paired(s) && Coherent(s.backup) && s.backup.fsm.state == Backup
    ensures var b := Receive(s.backup, AdvertV4(s.master), t);
            && Coherent(b) && b.cfg == s.backup.cfg && Hears(b, s.master) && b.fsm.state == Backup
            && b.fsm.timer.waitingFor == Some(t + Patience(s))
  {
    HearsLater(s.backup, s.backup, s.master);
    AcceptedPriority(s.backup, s.master, AdvertV4(s.master));
    StepKeepsCoherent(s.backup, Packet(AdvertV4(s.master), t));
    HearsLater(s.backup, Receive(s.backup, AdvertV4(s.master), t), s.master);
  }

  lemma {:induction false} ArriveKeeps(s: Pair, k: nat, t: Instant, delay: nat)
    requires Paired(s) && MasterSide(s) && BackupSide(s) && Timely(s, Arrive(k, t), delay)
    ensures var s' := Play(s, Arrive(k, t));
            Paired(s') && MasterSide(s') && BackupSide(s')
  {
    AdvertResets(s, t);
    var s' := Play(s, Arrive(k, t));
    assert s'.master == s.master && s'.sends == s.sends && Interval(s') == Interval(s);
    assert Patience(s') == Patience(s) && s'.backup.fsm.timer.waitingFor == Some(t + Patience(s));
  }

  predicate InStep(s: Pair) {
    Paired(s) && MasterSide(s) && BackupSide(s)
  }

  lemma {:induction false} PlayKeepsInStep(s: Pair, m: Move, delay: nat)
    requires InStep(s) && Timely(s, m, delay) && Interval(s) + SECOND + delay <= Patience(s)
    ensures InStep(Play(s, m))
    ensures Interval(Play(s, m)) == Interval(s) && Patience(Play(s, m)) == Patience(s)
  {
    NotYetDue(s, m, delay);
    PlayKeepsSettings(s, m);
    match m {
      case PollMaster(t) => PollMasterKeeps(s, t, delay);
      case PollBackup(t) => PollBackupKeeps(s, t, delay);
      case Arrive(k, t) => ArriveKeeps(s, k, t, delay);
    }
  }

  /** The Backup stays one, and the Master's advertisements are at most an interval and a
      second apart. */
  lemma {:induction false} TimelyRunKeepsInStep(s: Pair, moves: seq<Move>, delay: nat)
    requires InStep(s) && TimelyRun(s, moves, delay) && Interval(s) + SECOND + delay <= Patience(s)
    ensures InStep(PlayAll(s, moves)) && Interval(PlayAll(s, moves)) == Interval(s)
    decreases |moves|
  {
    if moves == [] {
    } else {
      PlayKeepsInStep(s, moves[0], delay);
      TimelyRunKeepsInStep(Play(s, moves[0]), moves[1..], delay);
    }
  }

  /** The Master keeps its pace whatever becomes of the Backup. */
  lemma {:induction false} RunKeepsMasterSide(s: Pair, moves: seq<Move>, delay: nat)
    requires MasterSide(s) && TimelyRun(s, moves, delay)
    ensures MasterSide(PlayAll(s, moves)) && Interval(PlayAll(s, moves)) == Interval(s)
    decreases |moves|
  {
    if moves == [] {
    } else {
      var s' := Play(s, moves[0]);
      if moves[0].PollMaster? {
        PollMasterKeepsMasterSide(s, moves[0].t, delay);
      } else {
        assert s'.master == s.master && s'.sends == s.sends && s'.lastPoll == s.lastPoll;
      }
      RunKeepsMasterSide(s', moves[1..], delay);
    }
  }

  /** A live Master's advertisements never lie further apart than an interval and a second, and
      the last one is never older than that. */
  lemma {:induction false} AdvertGap(start: Pair, moves: seq<Move>, delay: nat)
    requires HeardOne(start) && TimelyRun(start, moves, delay)
    ensures var e := PlayAll(start, moves);
            && |e.sends| >= 1 && e.now <= e.sends[|e.sends| - 1] + Interval(start) + SECOND
            && forall k :: 0 <= k < |e.sends| - 1 ==> e.sends[k + 1] <= e.sends[k] + Interval(start) + SECOND
  {
    RunKeepsMasterSide(start, moves, delay);
  }

  lemma {:induction false} PlayKeepsSettings(s: Pair, m: Move)
    requires Coherent(s.master) && Coherent(s.backup)
    ensures Play(s, m).master.cfg == s.master.cfg && Play(s, m).backup.cfg == s.backup.cfg
  {
    match m
    case PollMaster(t) => StepKeepsCoherent(s.master, TickAt(t));
    case PollBackup(t) => StepKeepsCoherent(s.backup, TickAt(t));
    case Arrive(k, t) => StepKeepsCoherent(s.backup, Packet(AdvertV4(s.master), t));
  }

  // ----- The bound is exact -----

  /** Only the Master has moved since the start; its second advertisement left no earlier than
      an interval and a second after the first. */
  predicate Lonely(start: Pair, s: Pair, elapsed: nat) {
    && s.backup == start.backup && s.arrived == {0}
    && Coherent(s.master) && s.master.fsm.state == Master && s.master.cfg == start.master.cfg
    && s.now == s.lastPoll == start.now + elapsed * SECOND
    && |s.sends| >= 1 && s.sends[0] == start.now
    && (forall k :: 0 < k < |s.sends| ==> start.now + Interval(start) + SECOND <= s.sends[k] <= s.now)
    && (|s.sends| == 1 ==> s.master.fsm.timer.waitingFor == Some(start.now + Interval(start)))
  }

  lemma {:induction false} LonelyPoll(start: Pair, s: Pair, elapsed: nat, delay: nat)
    requires Lonely(start, s, elapsed)
    requires (elapsed + 1) * SECOND <= Interval(start) + SECOND + delay
    ensures var m := PollMaster(s.now + SECOND);
            Timely(s, m, delay) && Lonely(start, Play(s, m), elapsed + 1)
  {
    var t := s.now + SECOND;
    PollingMaster(s.master, t);
    var a: nat := start.master.cfg.advertInterval;
    assert Interval(start) == a * SECOND;
    assert t > start.now + a * SECOND ==> elapsed >= a;
    var s' := Play(s, PollMaster(t));
    assert s'.sends == s.sends || s'.sends == s.sends + [t];
    if |s'.sends| > |s.sends| {
      assert t >= start.now + Interval(start) + SECOND by {
        if |s.sends| > 1 {
          assert s.sends[1] <= s.now;
        }
      }
    }
  }

  /** The Master alone polled every second, for as many seconds as the slack allows. */
  lemma {:induction false} LonelySeconds(start: Pair, seconds: nat, delay: nat) returns (moves: seq<Move>)
    requires Synced(start) && seconds * SECOND <= Interval(start) + SECOND + delay
    ensures TimelyRun(start, moves, delay) && Lonely(start, PlayAll(start, moves), seconds)
  {
    if seconds == 0 {
      moves := [];
    } else {
      var before := LonelySeconds(start, seconds - 1, delay);
      var s := PlayAll(start, before);
      var m := PollMaster(s.now + SECOND);
      LonelyPoll(start, s, seconds - 1, delay);
      moves := before + [m];
      PlayOneMore(start, before, m, delay);
    }
  }

  lemma {:induction false} PlayOneMore(s: Pair, moves: seq<Move>, m: Move, delay: nat)
    requires TimelyRun(s, moves, delay) && Timely(PlayAll(s, moves), m, delay)
    ensures TimelyRun(s, moves + [m], delay)
    ensures PlayAll(s, moves + [m]) == Play(PlayAll(s, moves), m)
    decreases |moves|
  {
    if moves == [] {
      assert moves + [m] == [m] && [m][1..] == [];
      assert TimelyRun(Play(s, m), [], delay) && PlayAll(Play(s, m), []) == Play(s, m);
    } else {
      assert (moves + [m])[0] == moves[0] && (moves + [m])[1..] == moves[1..] + [m];
      PlayOneMore(Play(s, moves[0]), moves[1..], m, delay);
    }
  }

  /** A delay beyond the bound lets the Backup take over from a live Master. */
  lemma {:induction false} SpuriousTakeover(start: Pair, delay: nat) returns (moves: seq<Move>)
    requires Synced(start) && Interval(start) + SECOND + delay > Patience(start)
    ensures TimelyRun(start, moves, delay) && PlayAll(start, moves).backup.fsm.state == Master
  {
    var span := Interval(start) + SECOND + delay;
    var before := LonelySeconds(start, span / SECOND, delay);
    var s := PlayAll(start, before);
    var m := PollBackup(start.now + span);
    assert s.now <= m.t <= s.now + SECOND;
    moves := before + [m];
    PlayOneMore(start, before, m, delay);
    LateTickFires(s.backup, m.t);
  }

  /** No Backup ever takes over from a live Master it hears, in any timely run, exactly when
      interval, poll period and delay together fit in the master-down interval. */
  lemma {:induction false} NoSpuriousTakeoverExactly(start: Pair, delay: nat)
    requires Synced(start)
    ensures (forall moves: seq<Move> | TimelyRun(start, moves, delay) ::
               PlayAll(start, moves).backup.fsm.state == Backup)
       <==> Interval(start) + SECOND + delay <= Patience(start)
  {
    if Interval(start) + SECOND + delay <= Patience(start) {
      forall moves: seq<Move> | TimelyRun(start, moves, delay)
        ensures PlayAll(start, moves).backup.fsm.state == Backup
      {
        TimelyRunKeepsInStep(start, moves, delay);
      }
    } else {
      var moves := SpuriousTakeover(start, delay);
    }
  }

  /** For intervals of at least a second, a delay of up to two intervals less a second is safe
      for every priority and both versions, however long the first advertisement took. */
  lemma {:induction false} TwoIntervalsLessASecondIsSafe(start: Pair, delay: nat, moves: seq<Move>)
    requires HeardOne(start) && start.backup.cfg.advertInterval >= 1
    requires delay + SECOND <= 2 * SECOND * start.backup.cfg.advertInterval
    requires TimelyRun(start, moves, delay)
    ensures PlayAll(start, moves).backup.fsm.state == Backup
  {
    MasterDownBounds(start.backup.cfg.version, start.backup.cfg.priority, start.backup.cfg.advertInterval);
    TimelyRunKeepsInStep(start, moves, delay);
  }
}
