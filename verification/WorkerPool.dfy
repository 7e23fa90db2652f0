/** The pool of asynchronous readers: workers claim indices from a shared counter, read one file each and
    store it in the slot of its index. A claim is one step and a completed read another; between steps
    any worker may run. */
module WorkerPool {
  import opened Text

  const FILE_READ_CONCURRENCY := 24

  datatype File = File(relativePath: string, source: string)

  /** About to claim, waiting for the read of an index, or returned. */
  datatype Worker = Idle | Reading(index: nat) | Done

  function Min(a: nat, b: nat): nat { if a < b then a else b }
  function Max(a: nat, b: nat): nat { if a > b then a else b }

  /** What slot `i` must end up with: empty paths and unreadable files are skipped. */
  function Slot(paths: seq<string>, disk: seq<Option<string>>, relative: string -> string, i: nat): Option<File>
    requires i < |paths| == |disk|
  {
    if paths[i] != "" && disk[i].Some? then Some(File(relative(paths[i]), disk[i].value)) else None
  }

  /** The readable files in path order. */
  function Readable(paths: seq<string>, disk: seq<Option<string>>, relative: string -> string): seq<File>
    requires |paths| == |disk|
  {
    if paths == [] then []
    else
      var n := |paths| - 1;
      Readable(paths[..n], disk[..n], relative)
        + (if paths[n] != "" && disk[n].Some? then [File(relative(paths[n]), disk[n].value)] else [])
  }

  function Present(slots: seq<Option<File>>): seq<File> {
    if slots == [] then []
    else Present(slots[..|slots| - 1]) + (if slots[|slots| - 1].Some? then [slots[|slots| - 1].value] else [])
  }

  lemma {:induction false} PresentIsReadable(slots: seq<Option<File>>, paths: seq<string>, disk: seq<Option<string>>,
                                             relative: string -> string)
    requires |slots| == |paths| == |disk|
    requires forall i | 0 <= i < |slots| :: slots[i] == Slot(paths, disk, relative, i)
    ensures Present(slots) == Readable(paths, disk, relative)
  {
    if slots != [] {
      var n := |slots| - 1;
      forall i | 0 <= i < n
        ensures slots[..n][i] == Slot(paths[..n], disk[..n], relative, i)
      {
        assert slots[i] == Slot(paths, disk, relative, i);
      }
      PresentIsReadable(slots[..n], paths[..n], disk[..n], relative);
      assert slots[n] == Slot(paths, disk, relative, n);
    }
  }

  predicate IsReadable(paths: seq<string>, disk: seq<Option<string>>, i: nat)
    requires |paths| == |disk|
  {
    i < |paths| && paths[i] != "" && disk[i].Some?
  }

  /** `files` are the readable ones, each once and in path order; `places` tells where they come from. */
  ghost predicate Picks(paths: seq<string>, disk: seq<Option<string>>, relative: string -> string, files: seq<File>,
                        places: seq<nat>)
    requires |paths| == |disk|
  {
    && |files| == |places|
    && (forall k | 0 <= k < |places| :: PicksAt(paths, disk, relative, files[k], places[k]))
    && (forall k, l | 0 <= k < l < |places| :: places[k] < places[l])
    && (forall i: nat | IsReadable(paths, disk, i) :: i in places)
  }

  predicate PicksAt(paths: seq<string>, disk: seq<Option<string>>, relative: string -> string, file: File, i: nat)
    requires |paths| == |disk|
  {
    IsReadable(paths, disk, i) && file == File(relative(paths[i]), disk[i].value)
  }

  lemma {:induction false} PicksOneMore(paths: seq<string>, disk: seq<Option<string>>, relative: string -> string,
                                        files: seq<File>, places: seq<nat>)
    requires paths != [] && |paths| == |disk|
    requires Picks(paths[..|paths| - 1], disk[..|disk| - 1], relative, files, places)
    ensures var n := |paths| - 1;
            if IsReadable(paths, disk, n)
            then Picks(paths, disk, relative, files + [File(relative(paths[n]), disk[n].value)], places + [n])
            else Picks(paths, disk, relative, files, places)
  {
    var n := |paths| - 1;
    forall i: nat | i < n
      ensures IsReadable(paths[..n], disk[..n], i) <==> IsReadable(paths, disk, i)
    {
    }
    forall k | 0 <= k < |places|
      ensures PicksAt(paths, disk, relative, files[k], places[k]) && places[k] < n
    {
      assert PicksAt(paths[..n], disk[..n], relative, files[k], places[k]);
    }
    forall i: nat | IsReadable(paths, disk, i) && i < n
      ensures i in places
    {
      assert IsReadable(paths[..n], disk[..n], i);
    }
  }

  /** The readable files are those with a path and a readable text, each once and in path order. */
  lemma {:induction false} ReadableInOrder(paths: seq<string>, disk: seq<Option<string>>, relative: string -> string)
    returns (places: seq<nat>)
    requires |paths| == |disk|
    ensures Picks(paths, disk, relative, Readable(paths, disk, relative), places)
  {
    places := [];
    if paths != [] {
      var n := |paths| - 1;
      places := ReadableInOrder(paths[..n], disk[..n], relative);
      PicksOneMore(paths, disk, relative, Readable(paths[..n], disk[..n], relative), places);
      if IsReadable(paths, disk, n) {
        places := places + [n];
      }
    }
  }

  /** The steps the workers still have to take for themselves. */
  function Effort(workers: seq<Worker>): nat {
    if workers == [] then 0
    else Effort(workers[..|workers| - 1]) + EffortOf(workers[|workers| - 1])
  }

  function EffortOf(w: Worker): nat {
    match w
    case Idle => 1
    case Reading(_) => 2
    case Done => 0
  }

  lemma {:induction false} EffortUpdate(workers: seq<Worker>, w: nat, state: Worker)
    requires w < |workers|
    ensures Effort(workers[w := state]) == Effort(workers) - EffortOf(workers[w]) + EffortOf(state)
  {
    var n := |workers| - 1;
    if w < n {
      assert workers[w := state][..n] == workers[..n][w := state];
      EffortUpdate(workers[..n], w, state);
    } else {
      assert workers[w := state][..n] == workers[..n];
    }
  }

  lemma {:induction false} EffortOfIdle(n: nat)
    ensures Effort(seq(n, _ => Idle)) == n
  {
    if n > 0 {
      assert seq(n, _ => Idle)[..n - 1] == seq(n - 1, _ => Idle);
      EffortOfIdle(n - 1);
    }
  }

  ghost predicate IsRead(workers: seq<Worker>, i: nat) {
    exists w | 0 <= w < |workers| :: workers[w] == Reading(i)
  }

  lemma {:induction false} StartRead(workers: seq<Worker>, w: nat, state: Worker, i: nat)
    requires w < |workers| && workers[w] == Idle
    ensures IsRead(workers[w := state], i) <==> IsRead(workers, i) || state == Reading(i)
  {
    var after := workers[w := state];
    if IsRead(workers, i) {
      var v :| 0 <= v < |workers| && workers[v] == Reading(i);
      assert after[v] == Reading(i);
    }
    if state == Reading(i) {
      assert after[w] == Reading(i);
    }
  }

  lemma {:induction false} EndRead(workers: seq<Worker>, w: nat, index: nat, i: nat)
    requires w < |workers| && workers[w] == Reading(index)
    requires forall v | 0 <= v < |workers| && v != w :: workers[v] != Reading(index)
    ensures IsRead(workers[w := Idle], i) <==> IsRead(workers, i) && i != index
  {
    var after := workers[w := Idle];
    if IsRead(workers, i) && i != index {
      var v :| 0 <= v < |workers| && workers[v] == Reading(i);
      assert after[v] == Reading(i);
    }
  }

  ghost predicate ClaimedUpTo(claimant: map<nat, nat>, next: nat) {
    forall i: nat :: i in claimant <==> i < next
  }

  /** A worker that reads has claimed its index, which has a path; a worker that is done found none left. */
  ghost predicate Owned(paths: seq<string>, workers: seq<Worker>, next: nat, claimant: map<nat, nat>)
    requires ClaimedUpTo(claimant, next)
  {
    forall w | 0 <= w < |workers| ::
      match workers[w]
      case Idle => true
      case Reading(index) => index < next && index < |paths| && paths[index] != "" && claimant[index] == w
      case Done => next >= |paths|
  }

  /** The slots of the indices claimed and not being read hold what they must, the others nothing. */
  ghost predicate Filled(paths: seq<string>, disk: seq<Option<string>>, relative: string -> string,
                         workers: seq<Worker>, next: nat, slots: seq<Option<File>>)
    requires |paths| == |disk| == |slots|
  {
    forall i | 0 <= i < |slots| ::
      slots[i] == if i < next && !IsRead(workers, i) then Slot(paths, disk, relative, i) else None
  }

  lemma {:induction false} ClaimKeeps(paths: seq<string>, disk: seq<Option<string>>, relative: string -> string,
                                      workers: seq<Worker>, next: nat, claimant: map<nat, nat>,
                                      slots: seq<Option<File>>, w: nat, state: Worker)
    requires |paths| == |disk| == |slots| && w < |workers| && workers[w] == Idle
    requires ClaimedUpTo(claimant, next)
    requires Owned(paths, workers, next, claimant) && Filled(paths, disk, relative, workers, next, slots)
    requires state == if next >= |paths| then Done else if paths[next] == "" then Idle else Reading(next)
    ensures ClaimedUpTo(claimant[next := w], next + 1)
    ensures Owned(paths, workers[w := state], next + 1, claimant[next := w])
    ensures Filled(paths, disk, relative, workers[w := state], next + 1, slots)
  {
    forall i | 0 <= i < |slots|
      ensures slots[i] == if i < next + 1 && !IsRead(workers[w := state], i) then Slot(paths, disk, relative, i)
              else None
    {
      StartRead(workers, w, state, i);
      if i == next {
        NotYetRead(paths, workers, next, claimant);
      }
    }
  }

  lemma {:induction false} NotYetRead(paths: seq<string>, workers: seq<Worker>, next: nat, claimant: map<nat, nat>)
    requires ClaimedUpTo(claimant, next)
    requires Owned(paths, workers, next, claimant)
    ensures !IsRead(workers, next)
  {
  }

  lemma {:induction false} CompleteKeeps(paths: seq<string>, disk: seq<Option<string>>, relative: string -> string,
                                         workers: seq<Worker>, next: nat, claimant: map<nat, nat>,
                                         slots: seq<Option<File>>, w: nat)
    requires |paths| == |disk| == |slots| && w < |workers| && workers[w].Reading?
    requires ClaimedUpTo(claimant, next)
    requires Owned(paths, workers, next, claimant) && Filled(paths, disk, relative, workers, next, slots)
    ensures var index := workers[w].index;
            && index < |paths| && paths[index] != ""
            && index in claimant && claimant[index] == w && slots[index] == None
            && Owned(paths, workers[w := Idle], next, claimant)
            && Filled(paths, disk, relative, workers[w := Idle], next,
               slots[index := Slot(paths, disk, relative, index)])
  {
    var index := workers[w].index;
    assert IsRead(workers, index);
    forall i | 0 <= i < |slots|
      ensures IsRead(workers[w := Idle], i) <==> IsRead(workers, i) && i != index
    {
      EndRead(workers, w, index, i);
    }
  }

  class Pool {
    const paths: seq<string>
    /** What reading each path yields, or `None` if the read fails. */
    const disk: seq<Option<string>>
    const relative: string -> string
    const output: array<Option<File>>
    var nextIndex: nat
    var workers: seq<Worker>
    /** Every claim, in order, and the claimant of each index. */
    ghost var claims: seq<nat>
    ghost var claimant: map<nat, nat>

    ghost predicate Valid()
      reads this, output
    {
      && |paths| == |disk| == output.Length
      && workers != []
      && |claims| == nextIndex && (forall i | 0 <= i < |claims| :: claims[i] == i)
      && ClaimedUpTo(claimant, nextIndex)
      && Owned(paths, workers, nextIndex, claimant)
      && Filled(paths, disk, relative, workers, nextIndex, output[..])
    }

    constructor (paths: seq<string>, disk: seq<Option<string>>, relative: string -> string)
      requires |paths| == |disk|
      ensures Valid() && this.paths == paths && this.disk == disk && this.relative == relative
      ensures fresh(output)
      ensures nextIndex == 0 && workers == seq(Min(FILE_READ_CONCURRENCY, Max(1, |paths|)), _ => Idle)
      ensures |workers| == if |paths| == 0 then 1 else if |paths| < 24 then |paths| else 24
    {
      this.paths, this.disk, this.relative := paths, disk, relative;
      output := new Option<File>[|paths|](_ => None);
      nextIndex := 0;
      workers := seq(Min(FILE_READ_CONCURRENCY, Max(1, |paths|)), _ => Idle);
      claims, claimant := [], map[];
    }

    /** How many steps are left at most, over all workers. */
    ghost function StepsLeft(): nat
      reads this
    {
      2 * (if nextIndex < |paths| then |paths| - nextIndex else 0) + Effort(workers)
    }

    /** Worker `w` takes the next index: no other worker gets it, then or ever. */
    method Claim(w: nat)
      requires Valid() && w < |workers| && workers[w] == Idle
      modifies this
      ensures Valid() && |workers| == |old(workers)| && StepsLeft() < old(StepsLeft())
      ensures nextIndex == old(nextIndex) + 1 && claims == old(claims) + [old(nextIndex)]
      ensures claimant == old(claimant)[old(nextIndex) := w] && old(nextIndex) !in old(claimant)
      ensures workers == old(workers)[w := if old(nextIndex) >= |paths| then Done
                                           else if paths[old(nextIndex)] == "" then Idle else Reading(old(nextIndex))]
    {
      var index := nextIndex;
      nextIndex := nextIndex + 1;
      claims, claimant := claims + [index], claimant[index := w];
      var state := if index >= |paths| then Done else if paths[index] == "" then Idle else Reading(index);
      EffortUpdate(workers, w, state);
      ClaimKeeps(paths, disk, relative, workers, index, old(claimant), output[..], w, state);
      workers := workers[w := state];
    }

    /** The read of worker `w` completes; it alone stores into the slot of the index it claimed. */
    method Complete(w: nat)
      requires Valid() && w < |workers| && workers[w].Reading?
      modifies this`workers, output
      ensures Valid() && StepsLeft() < old(StepsLeft())
      ensures workers == old(workers)[w := Idle]
      ensures claimant[old(workers[w].index)] == w
      ensures var index := old(workers[w].index);
              output[index] == if disk[index].Some? then Some(File(relative(paths[index]), disk[index].value)) else None
      ensures forall i | 0 <= i < output.Length && i != old(workers[w].index) :: output[i] == old(output[i])
    {
      var index := workers[w].index;
      EffortUpdate(workers, w, Idle);
      CompleteKeeps(paths, disk, relative, workers, nextIndex, claimant, output[..], w);
      workers := workers[w := Idle];
      if disk[index].Some? {
        output[index] := Some(File(relative(paths[index]), disk[index].value));
      }
      assert output[..] == old(output[..])[index := Slot(paths, disk, relative, index)];
    }
  }

  /** Under every schedule: the pool stops after at most two steps per path and one per worker, and the
      result is the readable files in path order. Each path's index is claimed exactly once. */
  method ReadRuntimeSourceFiles(paths: seq<string>, disk: seq<Option<string>>, relative: string -> string)
    returns (files: seq<File>, steps: nat)
    requires |paths| == |disk|
    ensures files == Readable(paths, disk, relative)
    ensures steps <= 2 * |paths| + Min(FILE_READ_CONCURRENCY, Max(1, |paths|))
  {
    var pool := new Pool(paths, disk, relative);
    EffortOfIdle(Min(FILE_READ_CONCURRENCY, Max(1, |paths|)));
    steps := 0;
    ghost var all := pool.StepsLeft();
    while exists w | 0 <= w < |pool.workers| :: pool.workers[w] != Done
      invariant pool.Valid() && pool.paths == paths && pool.disk == disk && pool.relative == relative
      invariant fresh(pool) && fresh(pool.output)
      invariant steps + pool.StepsLeft() <= all
      decreases pool.StepsLeft()
    {
      var w :| 0 <= w < |pool.workers| && pool.workers[w] != Done;
      if pool.workers[w] == Idle {
        pool.Claim(w);
      } else {
        pool.Complete(w);
      }
      steps := steps + 1;
    }
    assert pool.workers[0] == Done;
    forall i | 0 <= i < |paths|
      ensures pool.output[..][i] == Slot(paths, disk, relative, i)
    {
      assert !IsRead(pool.workers, i);
    }
    PresentIsReadable(pool.output[..], paths, disk, relative);
    files := Present(pool.output[..]);
  }
}
