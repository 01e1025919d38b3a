/**
 The traversal of the sleep queue, seen half-way: the first k sleepers have been visited, the woken
 ones moved to the run queue, the others kept in place with their counter reduced.
 */
module Sleepers {
  import opened KernelModel
  import opened Invariants

  ghost function HalfTicked(s: State, k: nat): (r: State)
    requires Shaped(s) && k <= |s.sleep|
    ensures Shaped(r)
  {
    s.(threads := seq(NUM_THREADS + 1, i requires 0 <= i < NUM_THREADS + 1 =>
                        if i in s.sleep[..k] then Tock(s.threads[i]) else s.threads[i]),
       run := s.run + Select(s.threads, s.sleep[..k], true),
       sleep := Select(s.threads, s.sleep[..k], false) + s.sleep[k..])
  }

  /** How many of the first k sleepers keep sleeping. */
  ghost function Kept(s: State, k: nat): nat
    requires Shaped(s) && k <= |s.sleep|
  {
    |Select(s.threads, s.sleep[..k], false)|
  }

  lemma TraversalStarts(s: State)
    requires Shaped(s)
    ensures HalfTicked(s, 0) == s && Kept(s, 0) == 0
  {
    var r := HalfTicked(s, 0);
    assert r.threads == s.threads;
    assert r.run == s.run && r.sleep == s.sleep;
  }

  lemma TraversalEnds(s: State)
    requires Shaped(s)
    ensures HalfTicked(s, |s.sleep|) == UpdateSleepers(s)
  {
    var r, u := HalfTicked(s, |s.sleep|), UpdateSleepers(s);
    assert s.sleep[..|s.sleep|] == s.sleep;
    assert r.threads == u.threads;
    assert r.sleep == u.sleep;
  }

  lemma SelectNext(threads: seq<Thread>, q: seq<nat>, k: nat, expired: bool)
    requires forall j :: 0 <= j < |q| ==> q[j] < |threads|
    requires k < |q|
    ensures Select(threads, q[..k + 1], expired) ==
            Select(threads, q[..k], expired) + (if (threads[q[k]].sleepCounter == 0) == expired then [q[k]] else [])
  {
    assert q[..k + 1][..k] == q[..k];
  }

  /** The next sleeper is untouched and stands behind those kept so far; nobody is queued twice. */
  lemma NextSleeper(s: State, k: nat)
    requires Shaped(s) && NoDup(s.sleep) && k < |s.sleep|
    ensures
      var h, t, d := HalfTicked(s, k), s.sleep[k], Kept(s, k);
      && h.threads[t] == s.threads[t]
      && d < |h.sleep| && h.sleep[d] == t
      && NoDup(h.sleep)
  {
    var kept := Select(s.threads, s.sleep[..k], false);
    SelectNoDup(s.threads, s.sleep[..k], false);
    assert s.sleep[k] !in s.sleep[..k];
    forall i, j | 0 <= i < |kept| && k <= j < |s.sleep|
      ensures kept[i] != s.sleep[j]
    {
      assert kept[i] in s.sleep[..k];
    }
  }

  lemma ThreadsNext(s: State, k: nat)
    requires Shaped(s) && NoDup(s.sleep) && k < |s.sleep|
    ensures HalfTicked(s, k + 1).threads == HalfTicked(s, k).threads[s.sleep[k] := Tock(s.threads[s.sleep[k]])]
  {
    assert s.sleep[..k + 1] == s.sleep[..k] + [s.sleep[k]];
  }

  lemma WokenQueues(s: State, k: nat)
    requires Shaped(s) && NoDup(s.sleep) && k < |s.sleep| && s.threads[s.sleep[k]].sleepCounter == 0
    ensures
      var h, n, d := HalfTicked(s, k), HalfTicked(s, k + 1), Kept(s, k);
      && d < |h.sleep| && Kept(s, k + 1) == d
      && n.run == h.run + [s.sleep[k]] && n.sleep == h.sleep[..d] + h.sleep[d + 1..]
  {
    SelectNext(s.threads, s.sleep, k, true);
    SelectNext(s.threads, s.sleep, k, false);
    MiddleRemoved(Select(s.threads, s.sleep[..k], false), s.sleep[k..]);
    assert s.sleep[k..][1..] == s.sleep[k + 1..];
  }

  lemma MiddleRemoved(front: seq<nat>, back: seq<nat>)
    requires back != []
    ensures (front + back)[..|front|] == front && (front + back)[|front| + 1..] == back[1..]
  {
  }

  lemma WakeNext(s: State, k: nat)
    requires Shaped(s) && NoDup(s.sleep) && k < |s.sleep| && s.threads[s.sleep[k]].sleepCounter == 0
    ensures
      var h, t, d := HalfTicked(s, k), s.sleep[k], Kept(s, k);
      && d < |h.sleep| && Kept(s, k + 1) == d
      && HalfTicked(s, k + 1) ==
         SetThread(h, t, s.threads[t].(status := Ready)).(sleep := h.sleep[..d] + h.sleep[d + 1..], run := h.run + [t])
  {
    ThreadsNext(s, k);
    WokenQueues(s, k);
  }

  lemma KeptQueues(s: State, k: nat)
    requires Shaped(s) && NoDup(s.sleep) && k < |s.sleep| && s.threads[s.sleep[k]].sleepCounter != 0
    ensures
      var h, n := HalfTicked(s, k), HalfTicked(s, k + 1);
      n.run == h.run && n.sleep == h.sleep && Kept(s, k + 1) == Kept(s, k) + 1
  {
    SelectNext(s.threads, s.sleep, k, true);
    SelectNext(s.threads, s.sleep, k, false);
    var kept := Select(s.threads, s.sleep[..k], false);
    assert kept + s.sleep[k..] == kept + [s.sleep[k]] + s.sleep[k + 1..];
  }

  lemma KeepNext(s: State, k: nat)
    requires Shaped(s) && NoDup(s.sleep) && k < |s.sleep| && s.threads[s.sleep[k]].sleepCounter != 0
    ensures
      var h, t := HalfTicked(s, k), s.sleep[k];
      && Kept(s, k + 1) == Kept(s, k) + 1
      && HalfTicked(s, k + 1) == SetThread(h, t, s.threads[t].(sleepCounter := s.threads[t].sleepCounter - 1))
  {
    ThreadsNext(s, k);
    KeptQueues(s, k);
  }
}
