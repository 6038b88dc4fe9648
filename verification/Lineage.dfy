/** What seeds inherit from the seeds they were fuzzed from. */
module Lineage {
  import opened Mailbox
  import opened Packet
  import opened Replay
  import opened Wrappers
  import opened Protocol
  import opened PacketMutation

  /** The radio as the interceptor sees it in a run that finds `q0` on the queue. */
  function Seen(c: Config, q0: seq<Msg>): Config { Shift(c, Reqs(q0)) }

  /** The record of a reachable state, run to its end or not, is that of some number of
      requests served one at a time. */
  lemma RecordIsServed(c: Config, q0: seq<Msg>, actions: seq<Action>) returns (n: nat)
    requires After(c, Init(c, q0), actions).Some?
    ensures After(c, Init(c, q0), actions).value.it.record == Serve(Seen(c, q0), n).record
  {
    InvAlways(c, q0, actions);
    var s := After(c, Init(c, q0), actions).value;
    n := Taken(q0, s);
    PlacedRecord(c, Seen(c, q0), n, Answered(q0, s), s.it, s.held);
    hide After, Placed, Serve, Reqs, Acks;
  }

  lemma PlacedRecord(c: Config, d: Config, taken: nat, n: int, it: Interceptor, held: Option<BlePkt>)
    requires d.corpus == c.corpus && d.mutate == c.mutate && Placed(c, d, taken, n, it, held)
    ensures it.record == Serve(d, taken).record
  {
    if taken != n { TakeRecord(c, d, n); }
    hide Take, Serve;
  }

  lemma TakeRecord(c: Config, d: Config, n: nat)
    requires d.corpus == c.corpus && d.mutate == c.mutate
    ensures Take(c, Serve(d, n), d.radio(n)).0.record == Serve(d, n + 1).record
  {
    TakeSame(c, d, Serve(d, n), d.radio(n));
    hide Take;
  }

  /** `child` is what some run on the seed `parent` recorded before it ended or was cut,
      whatever it found on the queue. */
  ghost predicate RunOn(c: Config, q0: seq<Msg>, actions: seq<Action>, parent: seq<BlePkt>, child: seq<BlePkt>) {
    && c.corpus == parent && Hijacked(Seen(c, q0)) && Receptions(Seen(c, q0))
    && After(c, Init(c, q0), actions).Some? && After(c, Init(c, q0), actions).value.it.record == child
  }

  /** Marks of `a` that `b` still has a packet for are marks of `b`. */
  predicate MarksPersist(a: seq<BlePkt>, b: seq<BlePkt>) {
    forall j :: 0 <= j < |a| && j < |b| && a[j].mutated == 1 ==> b[j].mutated == 1
  }

  lemma RunInherits(c: Config, q0: seq<Msg>, actions: seq<Action>, parent: seq<BlePkt>, child: seq<BlePkt>)
    requires RunOn(c, q0, actions, parent, child) && Discreet(Seen(c, q0)) && Recorded(parent)
    ensures Recorded(child) && |child| <= |parent| && MarksPersist(parent, child)
  {
    var n := RecordIsServed(c, q0, actions);
    RecordInherits(Seen(c, q0), n);
    hide After, Serve, Discreet, Hijacked, Receptions;
  }

  /** A descent in which the mutator of every run is discreet. */
  ghost predicate Child(parent: seq<BlePkt>, child: seq<BlePkt>) {
    exists c, q0, actions :: RunOn(c, q0, actions, parent, child) && Discreet(Seen(c, q0))
  }

  ghost predicate Descent(seeds: seq<seq<BlePkt>>) {
    forall n :: 0 < n < |seeds| ==> Child(seeds[n - 1], seeds[n])
  }

  lemma ChildInherits(parent: seq<BlePkt>, child: seq<BlePkt>)
    requires Recorded(parent) && Child(parent, child)
    ensures Recorded(child) && |child| <= |parent| && MarksPersist(parent, child)
  {
    var c, q0, actions :| RunOn(c, q0, actions, parent, child) && Discreet(Seen(c, q0));
    RunInherits(c, q0, actions, parent, child);
  }

  /** Down any line of descent from a recorded seed: every seed has at most 100 packets, all
      with a device, so the next run never hits the missing-device branch; no descendant is
      longer than an ancestor; and a packet once marked mutated stays marked in every
      descendant that reaches it. */
  lemma {:induction false} Descendants(seeds: seq<seq<BlePkt>>, m: nat, n: nat)
    requires Descent(seeds) && m <= n < |seeds| && Recorded(seeds[0])
    ensures Recorded(seeds[m]) && Recorded(seeds[n])
    ensures |seeds[n]| <= |seeds[m]| && MarksPersist(seeds[m], seeds[n])
    ensures |seeds[n]| <= 100 && forall j :: 0 <= j < |seeds[n]| ==>
      seeds[n][j].deviceId != 0 && (seeds[m][j].mutated == 1 ==> seeds[n][j].mutated == 1)
    decreases n
  {
    hide Recorded, Child;
    if m < n {
      Descendants(seeds, m, n - 1);
      ChildInherits(seeds[n - 1], seeds[n]);
    } else if n > 0 {
      Descendants(seeds, n - 1, n - 1);
      ChildInherits(seeds[n - 1], seeds[n]);
    }
    Handed(seeds[m], seeds[n]);
  }

  lemma Handed(parent: seq<BlePkt>, child: seq<BlePkt>)
    requires Recorded(child) && |child| <= |parent| && MarksPersist(parent, child)
    ensures |child| <= 100 && forall j :: 0 <= j < |child| ==>
      child[j].deviceId != 0 && (parent[j].mutated == 1 ==> child[j].mutated == 1)
  {
    RecordedIs(child);
  }

  lemma RecordedIs(pkts: seq<BlePkt>)
    ensures Recorded(pkts) <==> |pkts| <= 100 && forall j :: 0 <= j < |pkts| ==> pkts[j].deviceId != 0
  {
  }

  // ---------- The mutators of the program ----------

  /** `child` comes from `parent` by a run with the field-aware mutator. */
  ghost predicate FieldChild(parent: seq<BlePkt>, child: seq<BlePkt>) {
    exists c, q0, actions, chosen, draws :: FieldRunOn(c, q0, actions, chosen, draws, parent, child)
  }

  ghost predicate FieldRunOn(c: Config, q0: seq<Msg>, actions: seq<Action>, chosen: nat -> bool,
                             draws: nat -> nat -> nat, parent: seq<BlePkt>, child: seq<BlePkt>) {
    RunOn(c, q0, actions, parent, child) && Fed(Seen(c, q0)) && FieldMutated(Seen(c, q0), chosen, draws)
  }

  /** Every run of the field-aware mutator is one of a discreet mutator, for all choices and
      draws, so all that Descendants says holds down every line of its seeds. */
  lemma FieldDescendants(seeds: seq<seq<BlePkt>>, m: nat, n: nat)
    requires (forall i :: 0 < i < |seeds| ==> FieldChild(seeds[i - 1], seeds[i]))
    requires m <= n < |seeds| && Recorded(seeds[0])
    ensures Recorded(seeds[n]) && |seeds[n]| <= |seeds[m]| && MarksPersist(seeds[m], seeds[n])
  {
    hide FieldChild, Child, Recorded, MarksPersist;
    forall i | 0 < i < |seeds| ensures Child(seeds[i - 1], seeds[i]) {
      FieldChildIsChild(seeds[i - 1], seeds[i]);
    }
    Descendants(seeds, m, n);
  }

  lemma FieldChildIsChild(parent: seq<BlePkt>, child: seq<BlePkt>)
    requires FieldChild(parent, child)
    ensures Child(parent, child)
  {
    var c, q0, actions, chosen, draws :| FieldRunOn(c, q0, actions, chosen, draws, parent, child);
    hide Discreet, Fed, FieldMutated, Hijacked, Receptions, After;
    FieldRun(Seen(c, q0), chosen, draws);
  }

  /** The same with the random mutator. */
  ghost predicate RandomChild(parent: seq<BlePkt>, child: seq<BlePkt>) {
    exists c, q0, actions, draws :: RandomRunOn(c, q0, actions, draws, parent, child)
  }

  ghost predicate RandomRunOn(c: Config, q0: seq<Msg>, actions: seq<Action>,
                              draws: nat -> nat -> nat, parent: seq<BlePkt>, child: seq<BlePkt>) {
    RunOn(c, q0, actions, parent, child) && Fed(Seen(c, q0)) && RandomMutated(Seen(c, q0), draws)
  }

  ghost predicate AllWhole(pkts: seq<BlePkt>) {
    forall j :: 0 <= j < |pkts| ==> Whole(pkts[j])
  }

  lemma RandomChildWhole(parent: seq<BlePkt>, child: seq<BlePkt>)
    requires RandomChild(parent, child) && Recorded(parent) && AllWhole(parent)
    ensures Recorded(child) && AllWhole(child) && |child| <= |parent| && MarksPersist(parent, child)
  {
    var c, q0, actions, draws :| RandomRunOn(c, q0, actions, draws, parent, child);
    hide Discreet, Fed, RandomMutated, Hijacked, Receptions, After, Serve, Recorded, MarksPersist;
    hide AllWhole, Replayed, Seen;
    var d := Seen(c, q0);
    RandomRun(d, draws);
    RunInherits(c, q0, actions, parent, child);
    var n := RecordIsServed(c, q0, actions);
    RecordWhole(d, n);
  }

  lemma RecordWhole(d: Config, n: nat)
    requires Hijacked(d) && Receptions(d) && Recorded(d.corpus) && AllWhole(d.corpus)
    requires forall k :: 0 <= k < |d.corpus| && 5 <= d.corpus[k].len ==> Whole(d.mutate(k, k + 1, Replayed(d, k)))
    ensures AllWhole(Serve(d, n).record)
  {
    forall j: nat | j < |Serve(d, n).record| ensures Whole(Serve(d, n).record[j]) {
      RecordedPacket(d, n, j);
    }
    hide Serve, Replayed, Hijacked, Receptions, Recorded, InDomain;
  }

  /** Down every line of seeds of the random mutator the length invariant holds as well: every
      packet of every seed has `5 <= len <= max + 5`. */
  lemma {:induction false} RandomDescendants(seeds: seq<seq<BlePkt>>, m: nat, n: nat)
    requires (forall i :: 0 < i < |seeds| ==> RandomChild(seeds[i - 1], seeds[i]))
    requires m <= n < |seeds| && Recorded(seeds[0]) && AllWhole(seeds[0])
    ensures Recorded(seeds[n]) && AllWhole(seeds[n]) && |seeds[n]| <= |seeds[m]| && MarksPersist(seeds[m], seeds[n])
    decreases n
  {
    hide RandomChild, Recorded, AllWhole;
    if n > 0 {
      RandomDescendants(seeds, if m < n then m else n - 1, n - 1);
      RandomChildWhole(seeds[n - 1], seeds[n]);
    }
  }
}
