/** How `fuzz_one` and `wait_for_target` of blueman-main/btfuzz.c judge the end of a run, and
    whether the next run starts on an empty message queue. */
module Outcome {
  import opened Replay
  import opened Wrappers
  import opened Protocol
  import Campaign

  /** What `waitpid` reports of a process: an exit code, or the signal that ended it. */
  datatype Status = Exit(code: nat) | Signal(sig: nat)

  const SIGTRAP: nat := 5
  const SIGKILL: nat := 9

  /** `wait_for_target`.  An exit code of 1 is the address sanitizer's. */
  function WaitForTarget(target: Status): Campaign.Fault {
    match target
    case Signal(sig) =>
      if sig == SIGTRAP then Campaign.FaultError
      else if sig == SIGKILL then Campaign.FaultTimeout
      else Campaign.FaultCrash
    case Exit(code) =>
      if code == 0 then Campaign.FaultNone
      else if code == 1 then Campaign.FaultCrash
      else Campaign.FaultError
  }

  /** The attacker failed by itself; being killed in the clean-up does not count. */
  predicate AttackerFailed(attacker: Status) {
    attacker == Signal(SIGTRAP) || (attacker.Exit? && attacker.code != 0)
  }

  /** The end of `fuzz_one`, once the target is gone: which messages the next run finds, and
      whether this one is offered to the corpus. */
  method Conclude(target: Status, attacker: Status, queue: seq<Msg>, createInitCorpus: bool)
      returns (next: seq<Msg>, faultCount: nat, offered: bool)
    ensures next ==
      if target in {Exit(0), Signal(9)} && attacker != Signal(5) && (attacker.Exit? ==> attacker.code == 0) then queue
      else []
    ensures offered <==> !createInitCorpus && (target.Exit? ==> target.code != 1)
                         && (target.Signal? ==> target.sig in {5, 9})
    ensures forall r: Campaign.Run :: r.fault == WaitForTarget(target) ==>
      (offered <==> !createInitCorpus && Campaign.Survived(r))
    ensures faultCount == if target == Exit(1) || (target.Signal? && target.sig !in {5, 9}) then 1 else 0
  {
    var fault := WaitForTarget(target);
    next, faultCount := queue, 0;
    if AttackerFailed(attacker) || fault == Campaign.FaultError {
      next := [];
    }
    if fault == Campaign.FaultCrash {
      faultCount := faultCount + 1;
      next := [];
    }
    offered := faultCount == 0 && !createInitCorpus;
  }

  /** The next run finds as many messages as this one found, plus the request outstanding
      unless the interceptor has it in hand, if this one ended well or by the alarm and the
      attacker did not fail; otherwise it finds none.  A run that starts on an empty queue
      and ends well hands nothing on. */
  method ConcludeRun(c: Config, ghost q0: seq<Msg>, ghost actions: seq<Action>, s: State, target: Status,
                     attacker: Status) returns (next: seq<Msg>)
    requires After(c, Init(c, q0), actions) == Some(s) && s.target in {Exited, Dead}
    ensures target in {Exit(0), Signal(SIGKILL)} && !AttackerFailed(attacker) ==>
      |next| + InHand(s) + (if s.it.phase.Stuck? then 1 else 0) == |q0| + |s.requests| - |s.replies|
    ensures target !in {Exit(0), Signal(SIGKILL)} || AttackerFailed(attacker) ==> next == []
    ensures q0 == [] && s.target == Exited ==> next == []
  {
    Conservation(c, q0, actions);
    InvAlways(c, q0, actions);
    hide After, Placed;
    var faultCount, offered;
    next, faultCount, offered := Conclude(target, attacker, s.queue, false);
  }
}
