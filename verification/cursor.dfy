/** The database cursor that guards SQLite (litefs_django/db/backends/litefs/base.py, `LiteFSCursor`). */
module Cursor {
  import opened Wrappers
  import opened SqlDetector
  import opened SqlComments
  import opened SqlLaws
  import opened SqlWords
  import opened SplitBrain
  import Text

  datatype Call = Execute(sql: string) | ExecuteMany(sql: string) | ExecuteScript(sql: string)

  /** What the environment answers if it is asked during one call. It may change between calls. */
  datatype Env = Env(cluster: Result<RaftClusterState, SplitBrain.Error>, primary: Result<bool, ()>)

  datatype Outcome = Ran | SplitBrainError(leaders: nat) | NotPrimaryError | DetectorRaised

  predicate NeedsChecks(call: Call) {
    call.ExecuteScript? || IsWriteOperation(call.sql)
  }

  /** How one call ends: in production the split-brain check comes first, then the primary check. */
  function Judge(devMode: bool, hasDetector: bool, call: Call, env: Env): Outcome {
    if devMode || !NeedsChecks(call) then Ran
    else if hasDetector && env.cluster.Err? then DetectorRaised
    else if hasDetector && DetectSplitBrain(env.cluster.value).isSplitBrain then
      SplitBrainError(|DetectSplitBrain(env.cluster.value).leaderNodes|)
    else if env.primary.Err? then DetectorRaised
    else if !env.primary.value then NotPrimaryError
    else Ran
  }

  class LiteFSCursor {
    const hasSplitBrainDetector: bool
    const devMode: bool
    var executed: seq<Call>    // what SQLite has been given

    constructor (hasSplitBrainDetector: bool, devMode: bool)
      ensures this.hasSplitBrainDetector == hasSplitBrainDetector && this.devMode == devMode && executed == []
    {
      this.hasSplitBrainDetector, this.devMode, executed := hasSplitBrainDetector, devMode, [];
    }

    /** The check shared by the two statement calls; `None` lets the call go on. */
    method CheckSplitBrain(env: Env) returns (r: Option<Outcome>)
      ensures r == if !hasSplitBrainDetector then None
                   else if env.cluster.Err? then Some(DetectorRaised)
                   else if env.cluster.value.CountLeaders() > 1 then Some(SplitBrainError(env.cluster.value.CountLeaders()))
                   else None
    {
      if !hasSplitBrainDetector {
        return None;
      }
      if env.cluster.Err? {
        return Some(DetectorRaised);
      }
      var status := DetectSplitBrain(env.cluster.value);
      LeadersAndReplicasPartition(env.cluster.value);
      if status.isSplitBrain {
        return Some(SplitBrainError(|status.leaderNodes|));
      }
      return None;
    }

    method CheckPrimary(env: Env) returns (r: Option<Outcome>)
      ensures r == if env.primary.Err? then Some(DetectorRaised) else if !env.primary.value then Some(NotPrimaryError) else None
    {
      if env.primary.Err? {
        return Some(DetectorRaised);
      }
      if !env.primary.value {
        return Some(NotPrimaryError);
      }
      return None;
    }

    method CheckSplitBrainBeforeWrite(sql: string, env: Env) returns (r: Option<Outcome>)
      ensures devMode || !IsWriteOperation(sql) ==> r == None
      ensures !devMode && IsWriteOperation(sql) ==>
                r == if !hasSplitBrainDetector then None
                     else if env.cluster.Err? then Some(DetectorRaised)
                     else if env.cluster.value.CountLeaders() > 1 then Some(SplitBrainError(env.cluster.value.CountLeaders()))
                     else None
    {
      if devMode || !hasSplitBrainDetector {
        return None;
      }
      var write := DetectWrite(sql);
      if write {
        r := CheckSplitBrain(env);
        return;
      }
      return None;
    }

    method CheckPrimaryBeforeWrite(sql: string, env: Env) returns (r: Option<Outcome>)
      ensures devMode || !IsWriteOperation(sql) ==> r == None
      ensures !devMode && IsWriteOperation(sql) ==>
                r == if env.primary.Err? then Some(DetectorRaised) else if !env.primary.value then Some(NotPrimaryError) else None
    {
      if devMode {
        return None;
      }
      var write := DetectWrite(sql);
      if write {
        r := CheckPrimary(env);
        return;
      }
      return None;
    }

    /** `execute` and `executemany` differ only in what they hand to SQLite. */
    method RunStatement(call: Call, env: Env) returns (outcome: Outcome)
      requires !call.ExecuteScript?
      modifies this
      ensures outcome == Judge(devMode, hasSplitBrainDetector, call, env)
      ensures executed == if outcome == Ran then old(executed) + [call] else old(executed)
    {
      CountIsReport(env);
      var failed := CheckSplitBrainBeforeWrite(call.sql, env);
      if failed.Some? {
        return failed.value;
      }
      failed := CheckPrimaryBeforeWrite(call.sql, env);
      if failed.Some? {
        return failed.value;
      }
      executed := executed + [call];
      return Ran;
    }

    method RunScript(sql: string, env: Env) returns (outcome: Outcome)
      modifies this
      ensures outcome == Judge(devMode, hasSplitBrainDetector, Call.ExecuteScript(sql), env)
      ensures executed == if outcome == Ran then old(executed) + [Call.ExecuteScript(sql)] else old(executed)
    {
      CountIsReport(env);
      if !devMode {
        var failed := CheckSplitBrain(env);
        if failed.Some? {
          return failed.value;
        }
        failed := CheckPrimary(env);
        if failed.Some? {
          return failed.value;
        }
      }
      executed := executed + [Call.ExecuteScript(sql)];
      return Ran;
    }
  }

  lemma CountIsReport(env: Env)
    ensures env.cluster.Ok? ==>
              var status := DetectSplitBrain(env.cluster.value);
              status.isSplitBrain == (env.cluster.value.CountLeaders() > 1) &&
              |status.leaderNodes| == env.cluster.value.CountLeaders()
  {
    if env.cluster.Ok? { LeadersAndReplicasPartition(env.cluster.value); }
  }

  /** How each call ends. A statement classified as a read always runs, and so does everything in
      development mode; otherwise the split-brain check speaks first and the primary check only when it
      is silent. */
  lemma JudgeExact(devMode: bool, hasDetector: bool, call: Call, env: Env)
    ensures devMode || (!call.ExecuteScript? && !IsWriteOperation(call.sql)) ==> Judge(devMode, hasDetector, call, env) == Ran
    ensures !devMode && (call.ExecuteScript? || IsWriteOperation(call.sql)) ==>
      var r := Judge(devMode, hasDetector, call, env);
      && (hasDetector && env.cluster.Err? ==> r == DetectorRaised)
      && (hasDetector && env.cluster.Ok? && env.cluster.value.CountLeaders() > 1 ==>
            r == SplitBrainError(env.cluster.value.CountLeaders()))
      && (!hasDetector || (env.cluster.Ok? && env.cluster.value.CountLeaders() <= 1) ==>
            && (env.primary.Err? ==> r == DetectorRaised)
            && (env.primary == Ok(false) ==> r == NotPrimaryError)
            && (env.primary == Ok(true) ==> r == Ran))
  {
    CountIsReport(env);
  }

  // ---------- Runs ----------

  /** What SQLite has been given after a sequence of calls, each with the answers of its own moment. */
  function Executed(devMode: bool, hasDetector: bool, calls: seq<(Call, Env)>): seq<(Call, Env)> {
    if calls == [] then []
    else
      var before, last := Executed(devMode, hasDetector, calls[..|calls| - 1]), calls[|calls| - 1];
      if Judge(devMode, hasDetector, last.0, last.1) == Ran then before + [last] else before
  }

  /** The answers this call got allow a write. */
  predicate Allowed(hasDetector: bool, env: Env) {
    && (hasDetector ==> env.cluster.Ok? && env.cluster.value.CountLeaders() <= 1)
    && env.primary == Ok(true)
  }

  /** In production each statement that reaches SQLite is a read, or passed both checks in that call;
      and every call that may pass does. */
  lemma {:induction false} OnlyGuardedCallsRun(hasDetector: bool, calls: seq<(Call, Env)>)
    ensures forall e :: e in Executed(false, hasDetector, calls) <==>
                        e in calls && ((!e.0.ExecuteScript? && !IsWriteOperation(e.0.sql)) || Allowed(hasDetector, e.1))
  {
    if calls != [] {
      var n := |calls| - 1;
      OnlyGuardedCallsRun(hasDetector, calls[..n]);
      CountIsReport(calls[n].1);
      assert calls == calls[..n] + [calls[n]];
    }
  }

  /** What has reached SQLite stays, in the order of the calls. */
  lemma {:induction false} ExecutedInOrder(devMode: bool, hasDetector: bool, before: seq<(Call, Env)>, after: seq<(Call, Env)>)
    ensures Executed(devMode, hasDetector, before + after) ==
            Executed(devMode, hasDetector, before) + Executed(devMode, hasDetector, after)
  {
    if after == [] {
      assert before + after == before;
    } else {
      var rest, last := after[..|after| - 1], after[|after| - 1];
      assert (before + after)[..|before| + |rest|] == before + rest;
      ExecutedInOrder(devMode, hasDetector, before, rest);
    }
  }

  /** In development mode every call reaches SQLite. */
  lemma {:induction false} DevModeRunsAll(hasDetector: bool, calls: seq<(Call, Env)>)
    ensures Executed(true, hasDetector, calls) == calls
  {
    if calls != [] {
      DevModeRunsAll(hasDetector, calls[..|calls| - 1]);
      assert calls == calls[..|calls| - 1] + [calls[|calls| - 1]];
    }
  }

  /** A replica is a node whose primary check never answers true. */
  predicate OnReplica(calls: seq<(Call, Env)>) {
    forall i :: 0 <= i < |calls| ==> calls[i].1.primary != Ok(true)
  }

  /** On a replica no write, however the environment changes, reaches SQLite: no script, no statement
      the classifier flags, and so no flush common table expression whose main query opens with a
      write keyword, with or without closed block comments in front of it. */
  lemma NoWriteOnReplica(hasDetector: bool, calls: seq<(Call, Env)>, e: (Call, Env))
    requires OnReplica(calls) && e in Executed(false, hasDetector, calls)
    ensures !e.0.ExecuteScript? && !IsWriteOperation(e.0.sql)
  {
    OnlyGuardedCallsRun(hasDetector, calls);
  }

  lemma NoCteWriteOnReplica(hasDetector: bool, calls: seq<(Call, Env)>, e: (Call, Env), comment: string,
                            head: string, body: string, blanks: string, keyword: string, rest: string, main: string)
    requires OnReplica(calls) && e in calls && NoBlockClose(comment)
    requires main == blanks + keyword + rest && IsCte(head, body) && CommentFree(Cte(head, body, main))
    requires Text.AllSpace(blanks) && |keyword| == 6 && SpellsDml(keyword, 0)
    requires rest != [] ==> !Text.IsWord(rest[0])
    requires e.0.sql == Cte(head, body, main) || e.0.sql == "/*" + comment + "*/" + Cte(head, body, main)
    ensures e !in Executed(false, hasDetector, calls)
  {
    CteOpensWithWrite(head, body, blanks, keyword, rest, main);
    BlockInFront(comment, Cte(head, body, main));
    if e in Executed(false, hasDetector, calls) {
      NoWriteOnReplica(hasDetector, calls, e);
      assert false;
    }
  }
}
