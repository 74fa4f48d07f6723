/** The replicated store: every node feeds the commands it applies to its own slot table. */
module KvReplica {
  import opened RaftTypes
  import opened RaftHistory
  import opened RaftSystem
  import opened RaftTheorems
  import opened Bytes
  import opened KvCommand
  import opened KvSlots
  import opened KvSnapshot

  /** The command bytes of applied entries, in order. */
  function CommandBytes(es: seq<Entry>): seq<Octets> {
    seq(|es|, k requires 0 <= k < |es| => es[k].data)
  }

  /** A node's slot table after everything it has applied, from an empty table of its own. */
  function Table(empty: seq<Slot>, applied: seq<Entry>): seq<Slot> {
    ApplyLog(empty, CommandBytes(applied))
  }

  /** A replica that has applied a prefix of another's commands holds the map the other held then, and
      catches up by applying the rest. */
  lemma PrefixCatchesUp(empty1: seq<Slot>, empty2: seq<Slot>, a: seq<Entry>, b: seq<Entry>)
    requires EmptyTable(empty1) && EmptyTable(empty2) && |empty1| == |empty2| && a <= b
    ensures Contents(ApplyLog(Table(empty1, a), CommandBytes(b[|a|..]))) == Contents(Table(empty2, b))
    ensures |a| == |b| ==> Contents(Table(empty1, a)) == Contents(Table(empty2, b))
  {
    var ca, cb, rest := CommandBytes(a), CommandBytes(b), CommandBytes(b[|a|..]);
    assert cb == ca + rest;
    assert Contents(empty1) == Contents(empty2) == map[];
    ApplyLogConcat(empty1, ca, rest);
    LogRefines(empty1, cb);
    LogRefines(empty2, cb);
    if |a| == |b| { assert a == b; }
  }

  /** The goal of the clustered store: at any two points of a run, of the tables of any two replicas one
      becomes the other by applying further commands, and replicas that have applied equally many
      commands hold the same map. */
  lemma ReplicasAgree(c: Cluster, s0: System, es: seq<Event>, fs: seq<Event>, i: Id, j: Id,
                      empty1: seq<Slot>, empty2: seq<Slot>)
    requires c.Commits() && Init(c, s0) && RunOk(c, s0, es) && RunOk(c, Run(c, s0, es), fs)
    requires i in Run(c, s0, es).nodes && j in Run(c, Run(c, s0, es), fs).nodes
    requires EmptyTable(empty1) && EmptyTable(empty2) && |empty1| == |empty2|
    ensures var a, b := Run(c, s0, es).nodes[i].applied, Run(c, Run(c, s0, es), fs).nodes[j].applied;
      && (|a| == |b| ==> Contents(Table(empty1, a)) == Contents(Table(empty2, b)))
      && (|a| <= |b| ==>
            Contents(ApplyLog(Table(empty1, a), CommandBytes(b[|a|..]))) == Contents(Table(empty2, b)))
      && (|b| <= |a| ==>
            Contents(ApplyLog(Table(empty2, b), CommandBytes(a[|b|..]))) == Contents(Table(empty1, a)))
  {
    var a, b := Run(c, s0, es).nodes[i].applied, Run(c, Run(c, s0, es), fs).nodes[j].applied;
    StateMachineSafety(c, s0, es, fs, i, j);
    if |a| <= |b| { PrefixCatchesUp(empty1, empty2, a, b); }
    if |b| <= |a| { PrefixCatchesUp(empty2, empty1, b, a); }
  }
}
