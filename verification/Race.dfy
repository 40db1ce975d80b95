/**
  `login_AddClient` as it is really locked: the search for the uid and the append are two critical sections,
  and other threads run between them.
 */
module Race {
  import opened Bytes

  /** The uids in list order, and for each thread between the two sections the uid it found absent. */
  datatype Registry = Registry(online: seq<u32>, waiting: map<nat, u32>)

  datatype Step = Check(thread: nat, uid: u32) | Append(thread: nat) | Unlink(position: nat)

  function Next(s: Registry, step: Step): Registry {
    match step
    case Check(t, uid) => if t in s.waiting || uid in s.online then s else s.(waiting := s.waiting[t := uid])
    case Append(t) => if t in s.waiting then Registry(s.online + [s.waiting[t]], s.waiting - {t}) else s
    case Unlink(i) => if i < |s.online| then s.(online := s.online[..i] + s.online[i + 1..]) else s
  }

  /**
    A call that nothing comes between appends its uid at the tail if it is not online, and changes nothing if it
    is.
   */
  lemma AloneAppends(s: Registry, t: nat, uid: u32)
    requires t !in s.waiting
    ensures Next(Next(s, Check(t, uid)), Append(t)) == if uid in s.online then s else s.(online := s.online + [uid])
  {
    assert s.waiting[t := uid] - {t} == s.waiting;
  }

  /** A disconnection closes up the list behind the one it takes out, and leaves the waiting calls alone. */
  lemma UnlinkCloses(s: Registry, i: nat, j: nat)
    requires i < |s.online| && j < |s.online| - 1
    ensures var r := Next(s, Unlink(i));
      |r.online| == |s.online| - 1 && r.online[j] == s.online[if j < i then j else j + 1] && r.waiting == s.waiting
  {}

  ghost predicate Unique(online: seq<u32>) {
    forall i, j :: 0 <= i < j < |online| ==> online[i] != online[j]
  }

  /** No two threads wait with the same uid, and none with one that is online by now. */
  ghost predicate Separate(s: Registry) {
    && Unique(s.online)
    && (forall t :: t in s.waiting ==> s.waiting[t] !in s.online)
    && (forall t, u :: t in s.waiting && u in s.waiting && t != u ==> s.waiting[t] != s.waiting[u])
  }

  /** A thread finds absent a uid with which another is already waiting. */
  predicate Collides(s: Registry, step: Step) {
    && step.Check? && step.thread !in s.waiting && step.uid !in s.online
    && exists t :: t in s.waiting && s.waiting[t] == step.uid
  }

  /** The waiting threads go on, in some order. */
  function Appended(s: Registry, threads: seq<nat>): Registry
    decreases |threads|
  {
    if threads == [] then s else Appended(Next(s, Append(threads[0])), threads[1..])
  }

  /** Whatever order the waiting threads go on in, no uid is listed twice. */
  ghost predicate StaysUnique(s: Registry) {
    forall threads :: Unique(Appended(s, threads).online)
  }

  lemma AppendKeepsSeparate(s: Registry, t: nat)
    requires Separate(s)
    ensures Separate(Next(s, Append(t)))
  {}

  lemma {:induction false} AppendedUnique(s: Registry, threads: seq<nat>)
    requires Separate(s)
    ensures Unique(Appended(s, threads).online)
    decreases |threads|
  {
    if threads == [] {
    } else {
      AppendKeepsSeparate(s, threads[0]);
      AppendedUnique(Next(s, Append(threads[0])), threads[1..]);
    }
  }

  /** Two appends in a row. */
  lemma AppendedTwo(s: Registry, t: nat, u: nat)
    requires t in s.waiting && u in s.waiting && t != u
    ensures Appended(s, [t, u]).online == s.online + [s.waiting[t]] + [s.waiting[u]]
  {
    var next := Next(s, Append(t));
    assert [t, u][1..] == [u] && [u][1..] == [];
    assert Appended(next, [u]) == Appended(Next(next, Append(u)), []);
  }

  lemma AppendedOne(s: Registry, t: nat)
    requires t in s.waiting
    ensures Appended(s, [t]).online == s.online + [s.waiting[t]]
  {}

  lemma TwiceNotUnique(online: seq<u32>, i: nat, uid: u32)
    requires i < |online| && online[i] == uid
    ensures !Unique(online + [uid])
  {
    var grown := online + [uid];
    assert grown[i] == grown[|online|];
  }

  /** Separation is exactly what is needed: without it some order of the appends puts a uid into the list twice. */
  lemma SeparateIff(s: Registry)
    ensures Separate(s) <==> StaysUnique(s)
  {
    if Separate(s) {
      forall threads
        ensures Unique(Appended(s, threads).online)
      {
        AppendedUnique(s, threads);
      }
    } else if !Unique(s.online) {
      assert !Unique(Appended(s, []).online);
    } else if t :| t in s.waiting && s.waiting[t] in s.online {
      var i :| 0 <= i < |s.online| && s.online[i] == s.waiting[t];
      AppendedOne(s, t);
      TwiceNotUnique(s.online, i, s.waiting[t]);
    } else {
      var t, u :| t in s.waiting && u in s.waiting && t != u && s.waiting[t] == s.waiting[u];
      AppendedTwo(s, t, u);
      TwiceNotUnique(s.online + [s.waiting[t]], |s.online|, s.waiting[u]);
    }
  }

  /** One step loses separation exactly when it is a colliding check. */
  lemma StepSeparateIff(s: Registry, step: Step)
    requires Separate(s)
    ensures Separate(Next(s, step)) <==> !Collides(s, step)
  {
    if step.Check? && step.thread !in s.waiting && step.uid !in s.online {
      var r := Next(s, step);
      if t :| t in s.waiting && s.waiting[t] == step.uid {
        assert r.waiting[t] == r.waiting[step.thread];
      }
    }
  }

  predicate CollisionFree(s: Registry, steps: seq<Step>)
    decreases |steps|
  {
    steps == [] || (!Collides(s, steps[0]) && CollisionFree(Next(s, steps[0]), steps[1..]))
  }

  /** So it is after every step of the run. */
  ghost predicate NeverTwice(s: Registry, steps: seq<Step>)
    decreases |steps|
  {
    && StaysUnique(s)
    && (steps == [] || NeverTwice(Next(s, steps[0]), steps[1..]))
  }

  /**
    Over every interleaving: uids stay unique, however the pending calls finish, if and only if no thread's
    search for a uid ends while another thread is between search and append with the same uid.
   */
  lemma {:induction false} NeverTwiceIff(s: Registry, steps: seq<Step>)
    requires Separate(s)
    ensures NeverTwice(s, steps) <==> CollisionFree(s, steps)
    decreases |steps|
  {
    SeparateIff(s);
    if steps == [] {
    } else {
      var next := Next(s, steps[0]);
      StepSeparateIff(s, steps[0]);
      if Collides(s, steps[0]) {
        SeparateIff(next);
      } else {
        NeverTwiceIff(next, steps[1..]);
      }
    }
  }

  /** Two logins of one user that overlap this way both succeed. */
  lemma TwoLoginsBothSucceed(uid: u32)
    ensures
      var steps := [Check(0, uid), Check(1, uid)];
      var s := Next(Next(Registry([], map[]), steps[0]), steps[1]);
      !CollisionFree(Registry([], map[]), steps) && Appended(s, [0, 1]).online == [uid, uid]
  {}
}
