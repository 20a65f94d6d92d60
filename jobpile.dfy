/**
 * The blocking-job pile of libpagekite/pkblocker.c: a fixed array of job
 * slots plus a count of the occupied ones.  The manager thread adds jobs and
 * the blocker thread takes them; here both run sequentially, the mutex is
 * dropped and the condition-variable wait of pkb_get_job becomes the
 * precondition `count > 0`.
 */
module JobPile {
  import opened Wrappers

  /** pk_job_t */
  datatype JobKind = NoJob | Quit | CheckWorld | CheckFrontends

  /** struct pk_job: the kind and the opaque data pointer (None for NULL). */
  datatype Job = Job(kind: JobKind, data: Option<nat>)

  predicate IsFree(j: Job)
  {
    j.kind == NoJob
  }

  /** The number of occupied slots. */
  function Occupied(s: seq<Job>): (n: nat)
    ensures n <= |s|
  {
    if s == [] then 0 else (if IsFree(s[0]) then 0 else 1) + Occupied(s[1..])
  }

  /** The job a slot holds: none when it is free. */
  function Held(j: Job): multiset<Job>
  {
    if IsFree(j) then multiset{} else multiset{j}
  }

  /** The jobs held in the slots. */
  function Jobs(s: seq<Job>): multiset<Job>
  {
    if s == [] then multiset{} else Held(s[0]) + Jobs(s[1..])
  }

  /** Overwriting one slot changes the occupied count by what left and what
      arrived. */
  lemma {:induction false} OccupiedUpdate(s: seq<Job>, i: nat, j: Job)
    requires i < |s|
    ensures Occupied(s[i := j]) == Occupied(s) - (if IsFree(s[i]) then 0 else 1) + (if IsFree(j) then 0 else 1)
  {
    if i > 0 {
      OccupiedUpdate(s[1..], i - 1, j);
      assert s[i := j][1..] == s[1..][i - 1 := j];
    } else {
      assert s[i := j][1..] == s[1..];
    }
  }

  /** Overwriting one slot takes its job out of the pile and puts the new one
      in. */
  lemma {:induction false} JobsUpdate(s: seq<Job>, i: nat, j: Job)
    requires i < |s|
    ensures Jobs(s[i := j]) + Held(s[i]) == Jobs(s) + Held(j)
  {
    var t := s[i := j];
    if i > 0 {
      JobsUpdate(s[1..], i - 1, j);
      assert t[1..] == s[1..][i - 1 := j];
      assert t[0] == s[0];
      UnionShift(Held(s[0]), Jobs(t[1..]), Held(s[i]), Jobs(s[1..]), Held(j));
    } else {
      assert t[1..] == s[1..];
    }
  }

  lemma UnionShift(h: multiset<Job>, a: multiset<Job>, g: multiset<Job>, b: multiset<Job>, x: multiset<Job>)
    requires a + g == b + x
    ensures h + a + g == h + b + x
  {
    assert h + a + g == h + (a + g);
  }

  /** The number of occupied slots is the size of the multiset of jobs. */
  lemma {:induction false} OccupiedCountsJobs(s: seq<Job>)
    ensures Occupied(s) == |Jobs(s)|
  {
    if s != [] {
      OccupiedCountsJobs(s[1..]);
    }
  }

  /** The first slot that is free (free == true) or occupied (free == false). */
  function FirstSlot(s: seq<Job>, free: bool): (r: Option<nat>)
    ensures r.Some? ==> r.value < |s| && IsFree(s[r.value]) == free
    ensures r.Some? ==> forall k :: 0 <= k < r.value ==> IsFree(s[k]) != free
    ensures r.None? <==> forall k :: 0 <= k < |s| ==> IsFree(s[k]) != free
  {
    if s == [] then None
    else if IsFree(s[0]) == free then Some(0)
    else match FirstSlot(s[1..], free)
      case None => None
      case Some(i) => Some(i + 1)
  }

  /** A pile with occupied slots has a first occupied slot. */
  lemma {:induction false} OccupiedHasFirst(s: seq<Job>)
    ensures Occupied(s) > 0 <==> FirstSlot(s, false).Some?
  {
    if s != [] {
      OccupiedHasFirst(s[1..]);
    }
  }

  /** struct pk_job_pile without its mutex and condition variable. */
  class Pile {
    const pile: array<Job>
    var count: int

    /** `count` is the number of occupied slots. */
    ghost predicate Valid()
      reads this, pile
    {
      count == Occupied(pile[..])
    }

    /** The job pile set up by pkm_manager_init: `max` slots, all PK_NO_JOB,
        and a count of 0. */
    constructor (max: nat)
      ensures Valid() && fresh(pile) && pile.Length == max && count == 0
      ensures forall k :: 0 <= k < max ==> pile[k] == Job(NoJob, None)
    {
      pile := new Job[max](_ => Job(NoJob, None));
      count := 0;
      new;
      EmptyPile(pile[..]);
    }

    /**
     * pkb_add_job: stores the job in the lowest free slot and returns 1, or
     * returns -1 with nothing changed when every slot is taken.  The count
     * goes up with the slot, and stays the number of occupied slots unless
     * the job added is PK_NO_JOB itself.
     */
    method AddJob(kind: JobKind, data: Option<nat>) returns (r: int)
      requires Valid()
      modifies this, pile
      ensures kind != NoJob ==> Valid()
      ensures match FirstSlot(old(pile[..]), true)
        case Some(i) =>
          r == 1 && pile[..] == old(pile[..])[i := Job(kind, data)] && count == old(count) + 1 &&
          Jobs(pile[..]) == Jobs(old(pile[..])) + Held(Job(kind, data))
        case None =>
          r == -1 && pile[..] == old(pile[..]) && count == old(count)
    {
      var i := 0;
      while i < pile.Length
        invariant 0 <= i <= pile.Length
        invariant pile[..] == old(pile[..]) && count == old(count)
        invariant forall k :: 0 <= k < i ==> !IsFree(pile[k])
      {
        if pile[i].kind == NoJob {
          OccupiedUpdate(pile[..], i, Job(kind, data));
          JobsUpdate(pile[..], i, Job(kind, data));
          pile[i] := Job(kind, data);
          count := count + 1;
          return 1;
        }
        i := i + 1;
      }
      return -1;
    }

    /**
     * pkb_get_job once a job is waiting: copies out the lowest occupied slot,
     * clears it to PK_NO_JOB with NULL data and decrements the count.  The
     * -1 return of the source needs an empty pile, which the wait rules out.
     */
    method GetJob() returns (r: int, dest: Job)
      requires Valid() && count > 0
      modifies this, pile
      ensures Valid()
      ensures FirstSlot(old(pile[..]), false).Some?
      ensures var i := FirstSlot(old(pile[..]), false).value;
        r == 1 && dest == old(pile[i]) && dest.kind != NoJob &&
        pile[..] == old(pile[..])[i := Job(NoJob, None)] && count == old(count) - 1
      ensures Jobs(pile[..]) + multiset{dest} == Jobs(old(pile[..]))
    {
      OccupiedHasFirst(pile[..]);
      var i := 0;
      while i < pile.Length
        invariant 0 <= i <= pile.Length
        invariant pile[..] == old(pile[..]) && count == old(count)
        invariant forall k :: 0 <= k < i ==> IsFree(pile[k])
      {
        if pile[i].kind != NoJob {
          dest := pile[i];
          OccupiedUpdate(pile[..], i, Job(NoJob, None));
          JobsUpdate(pile[..], i, Job(NoJob, None));
          pile[i] := Job(NoJob, None);
          count := count - 1;
          return 1, dest;
        }
        i := i + 1;
      }
      assert false;
    }
  }

  lemma {:induction false} EmptyPile(s: seq<Job>)
    requires forall k :: 0 <= k < |s| ==> IsFree(s[k])
    ensures Occupied(s) == 0 && Jobs(s) == multiset{}
  {
    if s != [] {
      EmptyPile(s[1..]);
    }
  }

  /** The pile test of pkmanager_test: QUIT added to an empty pile comes back
      out, and the count returns to 0. */
  method QuitRoundTrip(p: Pile) returns (added: int, countBetween: int, taken: int, job: Job, countAfter: int)
    requires p.Valid() && p.count == 0 && p.pile.Length > 0
    requires forall k :: 0 <= k < p.pile.Length ==> p.pile[k] == Job(NoJob, None)
    modifies p, p.pile
    ensures p.Valid()
    ensures added == 1 && countBetween == 1
    ensures taken == 1 && job.kind == Quit && countAfter == 0
  {
    added := p.AddJob(Quit, None);
    countBetween := p.count;
    taken, job := p.GetJob();
    countAfter := p.count;
  }
}
