/** Runs: any number of attempts to archive one history, each in its own environment, sharing
    recorded progress and the object store. */
module ArchiveRuns {
  import opened Wrappers
  import opened Storage
  import opened Packing
  import opened Histories
  import opened ArchiveAttempt

  /** The world after a sequence of attempts. */
  ghost function Run(call: Call, envs: seq<Environment>, world: World): (after: World)
    requires ValidWorld(call, world)
    ensures ValidWorld(call, after)
  {
    if |envs| == 0 then world
    else
      var before := Run(call, envs[..|envs| - 1], world);
      AttemptRecords(call, envs[|envs| - 1], before);
      Attempt(call, envs[|envs| - 1], before).1
  }

  /** The world that attempt `k` of a run finds. */
  ghost function WorldBefore(call: Call, envs: seq<Environment>, world: World, k: nat): World
    requires ValidWorld(call, world) && k < |envs|
  {
    Run(call, envs[..k], world)
  }

  ghost function StartOf(call: Call, envs: seq<Environment>, world: World, k: nat): nat
    requires ValidWorld(call, world) && k < |envs|
  {
    StartCursor(envs[k], WorldBefore(call, envs, world, k).recorded)
  }

  ghost function OutcomeOf(call: Call, envs: seq<Environment>, world: World, k: nat): Outcome
    requires ValidWorld(call, world) && k < |envs|
  {
    Attempt(call, envs[k], WorldBefore(call, envs, world, k)).0
  }

  lemma RunOfOne(call: Call, env: Environment, world: World)
    requires ValidWorld(call, world)
    ensures Run(call, [env], world) == Attempt(call, env, world).1
  {
    assert Run(call, [env][..0], world) == world;
  }

  lemma PrefixOfPrefix(call: Call, envs: seq<Environment>, world: World, n: nat, k: nat)
    requires ValidWorld(call, world) && k < n <= |envs|
    ensures WorldBefore(call, envs[..n], world, k) == WorldBefore(call, envs, world, k)
    ensures StartOf(call, envs[..n], world, k) == StartOf(call, envs, world, k)
    ensures OutcomeOf(call, envs[..n], world, k) == OutcomeOf(call, envs, world, k)
  {
    assert envs[..n][..k] == envs[..k];
  }

  // ---- What a run leaves in the store ----

  /** Attempt `k` uploads and no later one does. */
  ghost predicate LastUpload(call: Call, envs: seq<Environment>, world: World, k: nat)
    requires ValidWorld(call, world)
  {
    && k < |envs|
    && OutcomeOf(call, envs, world, k).Uploaded?
    && forall j | k < j < |envs| :: !OutcomeOf(call, envs, world, j).Uploaded?
  }

  ghost predicate NoUpload(call: Call, envs: seq<Environment>, world: World)
    requires ValidWorld(call, world)
  {
    forall j | 0 <= j < |envs| :: !OutcomeOf(call, envs, world, j).Uploaded?
  }

  /** What the final attempt of a run does to the store. */
  lemma FinalAttempt(call: Call, envs: seq<Environment>, world: World)
    requires ValidWorld(call, world) && WellMarked(call.source) && |envs| > 0
    ensures var n := |envs| - 1;
            var before, after := Run(call, envs[..n], world).objects, Run(call, envs, world).objects;
            && after - {HistoryId(call)} == before - {HistoryId(call)}
            && (if OutcomeOf(call, envs, world, n).Uploaded?
                then HistoryId(call) in after
                     && Success(after[HistoryId(call)])
                        == Pack(call.codec, Batches(call.source[StartOf(call, envs, world, n)..]))
                else after == before)
  {
    AttemptUploads(call, envs[|envs| - 1], Run(call, envs[..|envs| - 1], world));
  }

  /** A run without an upload leaves every object as it was. */
  lemma {:induction false} RunWithoutUpload(call: Call, envs: seq<Environment>, world: World)
    requires ValidWorld(call, world) && WellMarked(call.source) && NoUpload(call, envs, world)
    ensures Run(call, envs, world).objects == world.objects
  {
    if |envs| > 0 {
      var n := |envs| - 1;
      FinalAttempt(call, envs, world);
      forall j | 0 <= j < n
        ensures !OutcomeOf(call, envs[..n], world, j).Uploaded?
      {
        PrefixOfPrefix(call, envs, world, n, j);
      }
      RunWithoutUpload(call, envs[..n], world);
    }
  }

  /** All other objects survive every run. */
  lemma {:induction false} RunKeepsOthers(call: Call, envs: seq<Environment>, world: World)
    requires ValidWorld(call, world) && WellMarked(call.source)
    ensures Run(call, envs, world).objects - {HistoryId(call)} == world.objects - {HistoryId(call)}
  {
    if |envs| > 0 {
      FinalAttempt(call, envs, world);
      RunKeepsOthers(call, envs[..|envs| - 1], world);
    }
  }

  lemma LastUploadOfPrefix(call: Call, envs: seq<Environment>, world: World, k: nat)
    requires ValidWorld(call, world) && LastUpload(call, envs, world, k) && k < |envs| - 1
    ensures LastUpload(call, envs[..|envs| - 1], world, k)
  {
    var n := |envs| - 1;
    forall j | k <= j < n
      ensures OutcomeOf(call, envs[..n], world, j) == OutcomeOf(call, envs, world, j)
    {
      PrefixOfPrefix(call, envs, world, n, j);
    }
  }

  /** The object a run leaves is the packed batches from the start cursor of its last upload to
      the end of the history. */
  lemma {:induction false} RunStores(call: Call, envs: seq<Environment>, world: World, k: nat)
    requires ValidWorld(call, world) && WellMarked(call.source) && LastUpload(call, envs, world, k)
    ensures var objects := Run(call, envs, world).objects;
            && HistoryId(call) in objects
            && Success(objects[HistoryId(call)])
               == Pack(call.codec, Batches(call.source[StartOf(call, envs, world, k)..]))
    decreases |envs|
  {
    var n := |envs| - 1;
    FinalAttempt(call, envs, world);
    if k < n {
      LastUploadOfPrefix(call, envs, world, k);
      PrefixOfPrefix(call, envs, world, n, k);
      RunStores(call, envs[..n], world, k);
    }
  }

  // ---- Where start cursors come from ----

  /** Progress that a run left was recorded by one of its attempts, past blobs that attempt
      found clean. */
  lemma {:induction false} ProgressWasRecorded(call: Call, envs: seq<Environment>, world: World) returns (j: nat)
    requires ValidWorld(call, world) && world.recorded.None? && Run(call, envs, world).recorded.Some?
    ensures j < |envs|
    ensures RecordedCleanly(call, envs[j], StartOf(call, envs, world, j), Run(call, envs, world).recorded.value)
    decreases |envs|
  {
    var n := |envs| - 1;
    var before := Run(call, envs[..n], world);
    AttemptRecords(call, envs[n], before);
    if Run(call, envs, world).recorded == before.recorded {
      j := ProgressWasRecorded(call, envs[..n], world);
      PrefixOfPrefix(call, envs, world, n, j);
    } else {
      j := n;
    }
  }

  /** An attempt starts at the beginning or at a cursor that an earlier attempt recorded. */
  lemma StartWasRecorded(call: Call, envs: seq<Environment>, world: World, k: nat)
    requires ValidWorld(call, world) && world.recorded.None? && k < |envs|
    ensures StartOf(call, envs, world, k) == 0
            || exists j | 0 <= j < k ::
                 RecordedCleanly(call, envs[j], StartOf(call, envs, world, j), StartOf(call, envs, world, k))
  {
    if StartOf(call, envs, world, k) != 0 {
      var j := ProgressWasRecorded(call, envs[..k], world);
      PrefixOfPrefix(call, envs, world, k, j);
    }
  }

  /** Every blob that recorded progress skips was delivered and found unmutated by some attempt. */
  lemma {:induction false} SkippedWasChecked(call: Call, envs: seq<Environment>, world: World, i: nat) returns (j: nat)
    requires ValidWorld(call, world) && world.recorded.None?
    requires Run(call, envs, world).recorded.Some? && i < Run(call, envs, world).recorded.value
    ensures j < |envs| && Clean(call, envs[j], i)
    decreases |envs|
  {
    var n := |envs| - 1;
    var before := Run(call, envs[..n], world);
    AttemptRecords(call, envs[n], before);
    if Run(call, envs, world).recorded == before.recorded || i < StartCursor(envs[n], before.recorded) {
      j := SkippedWasChecked(call, envs[..n], world, i);
    } else {
      j := n;
    }
  }

  /** When a run's upload happens, the whole history has been checked, by that attempt or
      an earlier one. */
  lemma UploadedWasChecked(call: Call, envs: seq<Environment>, world: World, k: nat, i: nat) returns (j: nat)
    requires ValidWorld(call, world) && world.recorded.None? && WellMarked(call.source)
    requires k < |envs| && OutcomeOf(call, envs, world, k).Uploaded? && i < |call.source|
    ensures j <= k && Clean(call, envs[j], i)
  {
    AttemptUploads(call, envs[k], WorldBefore(call, envs, world, k));
    if i < StartOf(call, envs, world, k) {
      j := SkippedWasChecked(call, envs[..k], world, i);
    } else {
      j := k;
    }
  }

  // ---- When the stored object is the history ----

  /** Nothing is invented or reordered: the skipped batches and the stored ones make up the
      history. The object is the complete history exactly when no batch was skipped. */
  lemma StoredExactly(call: Call, envs: seq<Environment>, world: World, k: nat)
    requires ValidWorld(call, world) && WellMarked(call.source) && LastUpload(call, envs, world, k)
    requires Invertible(call.codec)
    ensures var objects := Run(call, envs, world).objects;
            var start := StartOf(call, envs, world, k);
            var stored := Batches(call.source[start..]);
            && HistoryId(call) in objects
            && Unpack(call.codec, objects[HistoryId(call)]) == Success(stored)
            && Batches(call.source[..start]) + stored == Batches(call.source)
            && (stored == Batches(call.source) <==> Batches(call.source[..start]) == [])
  {
    var start := StartOf(call, envs, world, k);
    RunStores(call, envs, world, k);
    BatchesSplit(call.source, start);
    var skipped, stored := Batches(call.source[..start]), Batches(call.source[start..]);
    PackRoundTrip(call.codec, stored);
    assert |skipped + stored| == |skipped| + |stored|;
  }

  /** For blobs that carry batches: the object is the complete history exactly when its upload
      started at the beginning. */
  lemma StoredCompleteExactly(call: Call, envs: seq<Environment>, world: World, k: nat)
    requires ValidWorld(call, world) && WellMarked(call.source) && LastUpload(call, envs, world, k)
    requires Invertible(call.codec) && NothingEmpty(call.source)
    ensures var objects := Run(call, envs, world).objects;
            HistoryId(call) in objects
            && (Unpack(call.codec, objects[HistoryId(call)]) == Success(Batches(call.source))
                <==> StartOf(call, envs, world, k) == 0)
  {
    var start := StartOf(call, envs, world, k);
    StoredExactly(call, envs, world, k);
    if start > 0 {
      assert call.source[0] in call.source;
      BatchesStep(call.source, 0, start);
      assert call.source[0..start] == call.source[..start];
    } else {
      assert Batches(call.source[..0]) == [];
    }
  }

  /** Whatever fails, a run in which no attempt restores progress can only leave the complete
      history. */
  lemma WithoutRestoreComplete(call: Call, envs: seq<Environment>, world: World, k: nat)
    requires ValidWorld(call, world) && WellMarked(call.source) && LastUpload(call, envs, world, k)
    requires Invertible(call.codec) && forall j | 0 <= j < |envs| :: !Restores(envs[j])
    ensures var objects := Run(call, envs, world).objects;
            HistoryId(call) in objects && Unpack(call.codec, objects[HistoryId(call)]) == Success(Batches(call.source))
  {
    StoredExactly(call, envs, world, k);
    assert !Restores(envs[k]);
    assert call.source[0..] == call.source;
  }

  /** Nothing in the source hinders archiving. */
  ghost predicate Archivable(call: Call) {
    && ValidateUri(call.uri).None? && WellMarked(call.source) && call.source != []
    && (forall i | 0 <= i < |call.source| :: !HistoryMutated(call.request, call.source[i].body, call.source[i].isLast))
    && StatusPermits(call.config, call.source[|call.source| - 1])
  }

  /** Reads succeed before cursor `limit`; everything else goes well. */
  ghost function Smooth(limit: nat): Environment {
    Environment(true, true, true, true,
                (i: nat) => if i < limit then Delivered else Unreadable, (i: nat) => true, false, true)
  }

  /** An attempt whose reads fail at `c` leaves `c` as the restart cursor. */
  lemma SmoothRecords(call: Call, world: World, c: nat)
    requires Archivable(call) && world.recorded.None? && c < |call.source|
    ensures StartCursor(Smooth(|call.source|), Attempt(call, Smooth(c), world).1.recorded) == c
  {
    var stop := AttemptMeaning(call, Smooth(c), world);
    assert c < stop ==> Clean(call, Smooth(c), c);
    assert stop < c ==> Clean(call, Smooth(c), stop);
  }

  /** Every proper suffix can be what a run leaves: one read fails at `c`, the next attempt
      restores the cursor and uploads the rest as if it were the whole history. */
  lemma SuffixReachable(call: Call, world: World, c: nat) returns (envs: seq<Environment>)
    requires Archivable(call) && world.recorded.None? && c < |call.source|
    requires Pack(call.codec, Batches(call.source[c..])).Success?
    ensures |envs| == 2 && LastUpload(call, envs, world, 1) && StartOf(call, envs, world, 1) == c
  {
    envs := [Smooth(c), Smooth(|call.source|)];
    SmoothRecords(call, world, c);
    RunOfOne(call, Smooth(c), world);
    assert envs[..1] == [Smooth(c)];
    AttemptUploads(call, Smooth(|call.source|), WorldBefore(call, envs, world, 1));
  }

  // ---- Exhausted progress ----

  /** Once the end cursor is recorded, attempts that restore it change nothing, ever. */
  lemma {:induction false} ExhaustedSticks(call: Call, envs: seq<Environment>, world: World)
    requires WellMarked(call.source) && world.recorded == Some(|call.source|)
    requires forall j | 0 <= j < |envs| :: Restores(envs[j])
    ensures Run(call, envs, world) == world
  {
    if |envs| > 0 {
      var n := |envs| - 1;
      ExhaustedSticks(call, envs[..n], world);
      if ValidateUri(call.uri).None? && envs[n].accepted {
        NothingLeftExactly(call, envs[n], world);
      }
    }
  }

  /** A history is lost for good: after an attempt that recorded the end cursor but could not
      pack or put the object, every retry that restores reports success and writes nothing. */
  lemma LostAfterFailedPut(call: Call, env: Environment, world: World, retries: seq<Environment>, k: nat)
    requires ValidWorld(call, world) && WellMarked(call.source)
    requires Attempt(call, env, world).0.PutFailed? || Attempt(call, env, world).0.PackFailed?
    requires env.managed && env.records(|call.source|)
    requires forall j | 0 <= j < |retries| :: Restores(retries[j]) && retries[j].accepted
    requires k < |retries|
    ensures ValidWorld(call, Attempt(call, env, world).1)
    ensures Run(call, retries, Attempt(call, env, world).1).objects == world.objects
    ensures OutcomeOf(call, retries, Attempt(call, env, world).1, k) == NothingLeft
  {
    var after := Attempt(call, env, world).1;
    AttemptUploads(call, env, world);
    AttemptRecordsEnd(call, env, world);
    ExhaustedSticks(call, retries, after);
    ExhaustedSticks(call, retries[..k], after);
    NothingLeftExactly(call, retries[k], after);
  }

  /** The losing attempt happens: everything goes well except the put. */
  lemma LossReachable(call: Call, world: World) returns (env: Environment)
    requires Archivable(call) && ValidWorld(call, world) && world.recorded.None?
    ensures Attempt(call, env, world).0.PutFailed? || Attempt(call, env, world).0.PackFailed?
    ensures env.managed && env.records(|call.source|)
    ensures Attempt(call, env, world).1 == World(Some(|call.source|), world.objects)
  {
    env := Smooth(|call.source|).(put := false);
    var stop := AttemptMeaning(call, env, world);
    StopOfUpload(call, env, 0, stop);
    AttemptUploads(call, env, world);
    AttemptRecordsEnd(call, env, world);
  }

  /** Exactly when a retry in which everything works uploads: unless it restores the end cursor. */
  lemma RetryUploadsExactly(call: Call, env: Environment, world: World)
    requires Archivable(call) && ValidWorld(call, world)
    requires forall c | 0 <= c <= |call.source| :: Pack(call.codec, Batches(call.source[c..])).Success?
    requires env.accepted && env.put && forall i | 0 <= i < |call.source| :: env.read(i).Delivered?
    ensures Attempt(call, env, world).0.Uploaded? <==> !(Restores(env) && world.recorded == Some(|call.source|))
  {
    AttemptUploads(call, env, world);
    assert Pack(call.codec, Batches(call.source[StartCursor(env, world.recorded)..])).Success?;
  }
}
