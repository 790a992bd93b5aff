/** Machines that read inputs and send outputs, one at a time or many side by side under keys. */
module Machine {

  /** The state after a run. */
  function Run<S, I, O>(step: (S, I) -> (S, seq<O>), s: S, ins: seq<I>): S {
    if ins == [] then s else step(Run(step, s, ins[..|ins| - 1]), ins[|ins| - 1]).0
  }

  /** What a run sends, in order. */
  function Sent<S, I, O>(step: (S, I) -> (S, seq<O>), s: S, ins: seq<I>): seq<O> {
    if ins == [] then []
    else Sent(step, s, ins[..|ins| - 1]) + step(Run(step, s, ins[..|ins| - 1]), ins[|ins| - 1]).1
  }

  lemma RunSnoc<S, I, O>(step: (S, I) -> (S, seq<O>), s: S, ins: seq<I>, x: I)
    ensures Run(step, s, ins + [x]) == step(Run(step, s, ins), x).0
    ensures Sent(step, s, ins + [x]) == Sent(step, s, ins) + step(Run(step, s, ins), x).1
  {
    assert (ins + [x])[..|ins + [x]| - 1] == ins;
  }

  lemma {:induction false} RunSplit<S, I, O>(step: (S, I) -> (S, seq<O>), s: S, a: seq<I>, b: seq<I>)
    ensures Run(step, s, a + b) == Run(step, Run(step, s, a), b)
    ensures Sent(step, s, a + b) == Sent(step, s, a) + Sent(step, Run(step, s, a), b)
    decreases |b|
  {
    if b == [] {
      assert a + b == a;
    } else {
      var c, x := b[..|b| - 1], b[|b| - 1];
      assert b == c + [x] && a + b == (a + c) + [x];
      RunSplit(step, s, a, c);
      RunSnoc(step, s, a + c, x);
      RunSnoc(step, Run(step, s, a), c, x);
    }
  }

  /** An input that silently leads to s1 cuts a run: what follows is a run from s1. */
  lemma Restart<S, I, O>(step: (S, I) -> (S, seq<O>), s: S, before: seq<I>, x: I, s1: S, after: seq<I>)
    requires step(Run(step, s, before), x) == (s1, [])
    ensures Sent(step, s, before + [x] + after) == Sent(step, s, before) + Sent(step, s1, after)
    ensures Run(step, s, before + [x] + after) == Run(step, s1, after)
  {
    RunSnoc(step, s, before, x);
    RunSplit(step, s, before + [x], after);
    assert Sent(step, s, before) + [] == Sent(step, s, before);
  }

  // ----- machines side by side ------------------------------------------------------------------

  /** The state under a key; a key never used is in the initial state. */
  function At<K, S>(w: map<K, S>, init: S, k: K): S { if k in w then w[k] else init }

  /** An input names its machine; only that one moves, and its outputs carry its name. */
  function KeyedStep<K, S, I, O>(step: (S, I) -> (S, seq<O>), init: S): (map<K, S>, (K, I)) -> (map<K, S>, seq<(K, O)>) {
    (w: map<K, S>, x: (K, I)) =>
      var r := step(At(w, init, x.0), x.1);
      (w[x.0 := r.0], Labelled(x.0, r.1))
  }

  function Labelled<K, O>(k: K, os: seq<O>): seq<(K, O)> {
    if os == [] then [] else Labelled(k, os[..|os| - 1]) + [(k, os[|os| - 1])]
  }

  /** One more input moves the machine it names, and no other. */
  lemma KeyedSnoc<K, S, I, O>(step: (S, I) -> (S, seq<O>), init: S, w: map<K, S>, ins: seq<(K, I)>, x: (K, I))
    ensures var all := KeyedStep(step, init);
            var c: map<K, S> := Run(all, w, ins);
            var r := step(At(c, init, x.0), x.1);
            && Run(all, w, ins + [x]) == c[x.0 := r.0]
            && Sent(all, w, ins + [x]) == Sent(all, w, ins) + Labelled(x.0, r.1)
  {
    RunSnoc(KeyedStep(step, init), w, ins, x);
  }

  /** The part of a labelled sequence that belongs to a key. */
  function Only<K(==), T>(xs: seq<(K, T)>, k: K): seq<T> {
    if xs == [] then []
    else Only(xs[..|xs| - 1], k) + (if xs[|xs| - 1].0 == k then [xs[|xs| - 1].1] else [])
  }

  lemma {:induction false} OnlyAppend<K, T>(a: seq<(K, T)>, b: seq<(K, T)>, k: K)
    ensures Only(a + b, k) == Only(a, k) + Only(b, k)
    decreases |b|
  {
    if b == [] {
      assert a + b == a;
    } else {
      assert (a + b)[..|a + b| - 1] == a + b[..|b| - 1];
      OnlyAppend(a, b[..|b| - 1], k);
    }
  }

  lemma {:induction false} OnlyLabelled<K, O>(j: K, os: seq<O>, k: K)
    ensures Only(Labelled(j, os), k) == if j == k then os else []
  {
    if os != [] {
      var n := |os| - 1;
      OnlyLabelled(j, os[..n], k);
      OnlyAppend(Labelled(j, os[..n]), [(j, os[n])], k);
      assert Only([(j, os[n])], k) == Only([(j, os[n])][..0], k) + (if j == k then [os[n]] else []);
      assert os[..n] + [os[n]] == os;
    }
  }

  /** For any interleaving, each machine is where its own inputs take it and sends what they make it send. */
  lemma {:induction false} Isolation<K, S, I, O>(step: (S, I) -> (S, seq<O>), init: S, ins: seq<(K, I)>, k: K)
    ensures At(Run(KeyedStep(step, init), map[], ins), init, k) == Run(step, init, Only(ins, k))
    ensures Only(Sent(KeyedStep(step, init), map[], ins), k) == Sent(step, init, Only(ins, k))
  {
    if ins != [] {
      var all := KeyedStep(step, init);
      var c, x := ins[..|ins| - 1], ins[|ins| - 1];
      Isolation(step, init, c, k);
      assert ins == c + [x];
      RunSnoc(all, map[], c, x);
      var w: map<K, S> := Run(all, map[], c);
      var r := step(At(w, init, x.0), x.1);
      OnlyAppend(Sent(all, map[], c), Labelled(x.0, r.1), k);
      OnlyLabelled(x.0, r.1, k);
      assert all(w, x) == (w[x.0 := r.0], Labelled(x.0, r.1));
      if x.0 == k {
        assert Only(ins, k) == Only(c, k) + [x.1];
        RunSnoc(step, init, Only(c, k), x.1);
      } else {
        assert Only(ins, k) == Only(c, k);
      }
    }
  }
}
