/**
 * Witness generation for the semaphore circuit. The prover binds the root,
 * the key, the topic, the index and the siblings; the generators then add
 * the index bits, the zero constant, the in-circuit nullifier hash and,
 * through the copy constraints, the public nullifier. Starting from a
 * member's inputs, the completed assignment carries exactly the values
 * `WireValues` lists, so proving succeeds iff those inputs are in the
 * relation.
 */
module Generation {
  import opened Field
  import opened Bits
  import opened Plonk
  import opened Circuit
  import opened Semantics

  /** Every value `w` binds is the one `vs` lists for that wire. */
  predicate Matches(w: Witness, vs: seq<F>) {
    forall k | k in w :: k < |vs| && w[k] == vs[k]
  }

  /** `w` binds every wire from lo to hi-1. */
  predicate Covers(w: Witness, lo: nat, hi: nat) {
    forall k | lo <= k < hi :: k in w
  }

  lemma MatchesAgree(w: Witness, vs: seq<F>, lo: nat, hi: nat)
    requires Matches(w, vs) && Covers(w, lo, hi) && hi <= |vs|
    ensures AgreesOn(w, vs, lo, hi)
  {
  }

  /** Covering every slot of the layout covers all its wires. */
  lemma CoversLayout(w: Witness, h: nat)
    requires Covers(w, 0, 4) && Covers(w, 4, 8) && Covers(w, 8, 12) && Covers(w, 12, 12 + 4 * h)
    requires Covers(w, 12 + 4 * h, 16 + 4 * h) && 16 + 4 * h in w && Covers(w, 17 + 4 * h, 17 + 5 * h)
    requires 17 + 5 * h in w && Covers(w, 18 + 5 * h, 22 + 5 * h)
    ensures Covers(w, 0, 22 + 5 * h)
  {
  }

  lemma CoversGrow(w: Witness, w': Witness, lo: nat, hi: nat)
    requires Covers(w, lo, hi) && w.Keys <= w'.Keys
    ensures Covers(w', lo, hi)
  {
  }

  /** Binding a slice of `vs` to its own wires keeps the witness faithful to `vs`. */
  lemma {:induction false} MergeMatches(w: Witness, vs: seq<F>, start: nat, part: seq<F>)
    requires Matches(w, vs) && start + |part| <= |vs| && vs[start..start + |part|] == part
    ensures Matches(w + RangeMap(start, part), vs) && Covers(w + RangeMap(start, part), start, start + |part|)
  {
    var m := RangeMap(start, part);
    forall k | k in w + m
      ensures k < |vs| && (w + m)[k] == vs[k]
    {
      if k in m {
        assert m[k] == part[k - start] == vs[start..start + |part|][k - start];
      }
    }
  }

  /** The wires of a run carry the slice of `vs` that starts there. */
  lemma {:induction false} RangeSlots(vs: seq<F>, start: nat, part: seq<F>)
    requires start + |part| <= |vs| && vs[start..start + |part|] == part
    ensures forall i | 0 <= i < |part| :: Range(start, |part|)[i] < |vs| && vs[Range(start, |part|)[i]] == part[i]
  {
    RangeIndex(start, |part|);
    forall i | 0 <= i < |part|
      ensures vs[start + i] == part[i]
    {
      assert part[i] == vs[start..start + |part|][i];
    }
  }

  lemma {:induction false} CoversRange(w: Witness, start: nat, n: nat)
    requires Assigned(w, Range(start, n))
    ensures Covers(w, start, start + n)
  {
    RangeIndex(start, n);
    forall k | start <= k < start + n
      ensures k in w
    {
      assert Range(start, n)[k - start] == k;
    }
  }

  /**
   * A generator filling wires with the values `vs` lists for them keeps the
   * witness faithful to `vs`, whether or not a wire was bound before.
   */
  lemma {:induction false} FillMatches(w: Witness, vs: seq<F>, ts: seq<Target>, vals: seq<F>)
    requires Matches(w, vs) && |ts| == |vals|
    requires forall i | 0 <= i < |ts| :: ts[i] < |vs| && vs[ts[i]] == vals[i]
    ensures var w' := FillUnassigned(w, ts, vals);
      Matches(w', vs) && Assigned(w', ts) && w.Keys <= w'.Keys
    decreases |ts|
  {
    if ts != [] {
      var w1 := if ts[0] in w then w else w[ts[0] := vals[0]];
      assert forall i | 0 <= i < |ts[1..]| :: ts[1..][i] == ts[i + 1] && vals[1..][i] == vals[i + 1];
      FillMatches(w1, vs, ts[1..], vals[1..]);
      assert ts == [ts[0]] + ts[1..];
    }
  }

  /** The split generator writes the bits of the bound index. */
  lemma {:induction false} GenBits(hs: Hasher, w: Witness, vs: seq<F>, h: nat, index: F)
    requires |vs| == 22 + 5 * h && Matches(w, vs)
    requires 16 + 4 * h in w && vs[16 + 4 * h] == index
    requires vs[17 + 4 * h..17 + 5 * h] == FromBits(SplitLE(index, h))
    ensures var w' := Generator(hs, w, SplitLe(Layout(0, h).Index(), Layout(0, h).IndexBits()));
      Matches(w', vs) && Covers(w', 17 + 4 * h, 17 + 5 * h) && w.Keys <= w'.Keys
  {
    var l := Layout(0, h);
    var bits := FromBits(SplitLE(index, h));
    assert w[l.Index()] == index;
    assert Generator(hs, w, SplitLe(l.Index(), l.IndexBits())) == FillUnassigned(w, l.IndexBits(), bits);
    RangeSlots(vs, 17 + 4 * h, bits);
    FillMatches(w, vs, l.IndexBits(), bits);
    CoversRange(FillUnassigned(w, l.IndexBits(), bits), 17 + 4 * h, h);
  }

  /** The constant generator writes zero on the zero wire. */
  lemma GenZero(hs: Hasher, w: Witness, vs: seq<F>, h: nat)
    requires |vs| == 22 + 5 * h && Matches(w, vs) && vs[17 + 5 * h] == ZERO
    ensures var w' := Generator(hs, w, Constant(Layout(0, h).Zero(), ZERO));
      Matches(w', vs) && 17 + 5 * h in w' && w.Keys <= w'.Keys
  {
  }

  /** The hash generator writes the hash of the bound key and topic on its output run. */
  lemma {:induction false} GenHash(hs: Hasher, w: Witness, vs: seq<F>, keyAt: nat, topicAt: nat, outAt: nat,
                                   sk: Digest, topic: Digest)
    requires Matches(w, vs) && keyAt + 4 <= |vs| && topicAt + 4 <= |vs| && outAt + 4 <= |vs|
    requires Covers(w, keyAt, keyAt + 4) && Covers(w, topicAt, topicAt + 4)
    requires vs[keyAt..keyAt + 4] == sk && vs[topicAt..topicAt + 4] == topic
    requires vs[outAt..outAt + 4] == hs.hashNoPad(sk + topic)
    ensures var w' := Generator(hs, w, HashNoPad(Range(keyAt, 4) + Range(topicAt, 4), Range(outAt, 4)));
      Matches(w', vs) && Covers(w', outAt, outAt + 4) && w.Keys <= w'.Keys
  {
    MatchesAgree(w, vs, keyAt, keyAt + 4);
    MatchesAgree(w, vs, topicAt, topicAt + 4);
    ValuesOfRange(w, vs, keyAt, 4);
    ValuesOfRange(w, vs, topicAt, 4);
    ValuesConcat(w, Range(keyAt, 4), Range(topicAt, 4));
    var nul := hs.hashNoPad(sk + topic);
    var ins := Range(keyAt, 4) + Range(topicAt, 4);
    assert Assigned(w, ins) && Values(w, ins) == sk + topic;
    assert Generator(hs, w, HashNoPad(ins, Range(outAt, 4))) == FillUnassigned(w, Range(outAt, 4), nul);
    RangeSlots(vs, outAt, nul);
    FillMatches(w, vs, Range(outAt, 4), nul);
    CoversRange(FillUnassigned(w, Range(outAt, 4), nul), outAt, 4);
  }

  /** The copy generators carry the values of one run of wires over to another, unbound one. */
  lemma GenConnects(hs: Hasher, w: Witness, vs: seq<F>, a: nat, b: nat, n: nat)
    requires n <= 4 && a + 4 <= |vs| && b + 4 <= |vs| && Matches(w, vs)
    requires Covers(w, b, b + 4) && vs[a..a + 4] == vs[b..b + 4]
    ensures var w' := Generate(hs, ConnectAll(Range(a, 4), Range(b, 4), n), w);
      Matches(w', vs) && Covers(w', a, a + n) && w.Keys <= w'.Keys
  {
    var xs, ys := Range(a, 4), Range(b, 4);
    forall i | 0 <= i < n
      ensures xs[i] < |vs| && ys[i] in w && vs[xs[i]] == vs[ys[i]]
    {
      assert vs[a + i] == vs[a..a + 4][i] == vs[b..b + 4][i] == vs[b + i];
    }
    GenConnectsAll(hs, w, vs, xs, ys, n);
    var w' := Generate(hs, ConnectAll(xs, ys, n), w);
    forall k | a <= k < a + n
      ensures k in w'
    {
      assert xs[k - a] == k;
    }
  }

  /** Copy generators `xs[i] := ys[i]`, for i below n, from bound wires to wires meant to hold the same values. */
  lemma {:induction false} GenConnectsAll(hs: Hasher, w: Witness, vs: seq<F>, xs: seq<Target>, ys: seq<Target>,
                                          n: nat)
    requires n <= |xs| && n <= |ys| && Matches(w, vs)
    requires forall i | 0 <= i < n :: xs[i] < |vs| && ys[i] in w && vs[xs[i]] == vs[ys[i]]
    ensures var w' := Generate(hs, ConnectAll(xs, ys, n), w);
      && Matches(w', vs) && w.Keys <= w'.Keys && forall i | 0 <= i < n :: xs[i] in w'
    decreases n
  {
    if n == 0 {
      assert Generate(hs, ConnectAll(xs, ys, 0), w) == w;
    } else {
      var c := Connect(xs[n - 1], ys[n - 1]);
      GenerateConcat(hs, ConnectAll(xs, ys, n - 1), [c], w);
      GenConnectsAll(hs, w, vs, xs, ys, n - 1);
      var w1 := Generate(hs, ConnectAll(xs, ys, n - 1), w);
      assert Generate(hs, [c], w1) == Generator(hs, w1, c);
      ConnectMatches(hs, w1, vs, xs[n - 1], ys[n - 1]);
    }
  }

  /** One copy generator, from a bound wire to a wire that must carry the same value. */
  lemma ConnectMatches(hs: Hasher, w: Witness, vs: seq<F>, x: nat, y: nat)
    requires Matches(w, vs) && y in w && x < |vs| && vs[x] == vs[y]
    ensures var w' := Generator(hs, w, Connect(x, y)); Matches(w', vs) && x in w' && w.Keys <= w'.Keys
  {
  }

  /** The hash gate and the copy constraints of the layout from wire 0, on plain runs of wires. */
  lemma LayoutRuns(h: nat)
    ensures var l := Layout(0, h);
      && l.Gates()[3] == HashNoPad(Range(12 + 4 * h, 4) + Range(8, 4), Range(18 + 5 * h, 4))
      && l.Connects(4) == ConnectAll(Range(4, 4), Range(18 + 5 * h, 4), 4)
  {
  }

  /** Running the generators of four constraints, one after the other. */
  lemma GenerateFour(hs: Hasher, cs: seq<Constraint>, w: Witness)
    requires |cs| == 4
    ensures Generate(hs, cs, w)
         == Generator(hs, Generator(hs, Generator(hs, Generator(hs, w, cs[0]), cs[1]), cs[2]), cs[3])
  {
    var w1 := Generator(hs, w, cs[0]);
    var w2 := Generator(hs, w1, cs[1]);
    var w3 := Generator(hs, w2, cs[2]);
    var w4 := Generator(hs, w3, cs[3]);
    assert cs[1..][0] == cs[1] && cs[1..][1..] == cs[2..];
    assert cs[2..][0] == cs[2] && cs[2..][1..] == cs[3..];
    assert cs[3..][0] == cs[3] && cs[3..][1..] == [];
    calc {
      Generate(hs, cs, w);
      Generate(hs, cs[1..], w1);
      Generate(hs, cs[2..], w2);
      Generate(hs, cs[3..], w3);
      Generate(hs, [], w4);
    }
  }

  /** The wires the prover binds: root, topic, siblings, key and index. */
  predicate InputsBound(w: Witness, h: nat) {
    && Covers(w, 0, 4) && Covers(w, 8, 12) && Covers(w, 12, 12 + 4 * h)
    && Covers(w, 12 + 4 * h, 16 + 4 * h) && 16 + 4 * h in w
  }

  lemma InputsStayBound(w: Witness, w': Witness, h: nat)
    requires InputsBound(w, h) && w.Keys <= w'.Keys
    ensures InputsBound(w', h)
  {
  }

  /** The split and constant generators add the index bits and the zero. */
  lemma {:induction false} BitsAndZero(hs: Hasher, w0: Witness, vs: seq<F>, h: nat, index: F)
    requires |vs| == 22 + 5 * h && Matches(w0, vs) && InputsBound(w0, h)
    requires vs[16 + 4 * h] == index && vs[17 + 4 * h..17 + 5 * h] == FromBits(SplitLE(index, h))
    requires vs[17 + 5 * h] == ZERO
    ensures var gs := Layout(0, h).Gates(); var w := Generator(hs, Generator(hs, w0, gs[0]), gs[1]);
      && Matches(w, vs) && InputsBound(w, h) && Covers(w, 17 + 4 * h, 17 + 5 * h) && 17 + 5 * h in w
  {
    var gs := Layout(0, h).Gates();
    var w1 := Generator(hs, w0, gs[0]);
    GenBits(hs, w0, vs, h, index);
    InputsStayBound(w0, w1, h);
    var w2 := Generator(hs, w1, gs[1]);
    GenZero(hs, w1, vs, h);
    InputsStayBound(w1, w2, h);
    CoversGrow(w1, w2, 17 + 4 * h, 17 + 5 * h);
  }

  /** The membership gate generates nothing; the hash generator adds the in-circuit nullifier. */
  lemma {:induction false} MembershipAndHash(hs: Hasher, w2: Witness, vs: seq<F>, h: nat, sk: Digest, topic: Digest)
    requires |vs| == 22 + 5 * h && Matches(w2, vs) && InputsBound(w2, h)
    requires Covers(w2, 17 + 4 * h, 17 + 5 * h) && 17 + 5 * h in w2
    requires vs[8..12] == topic && vs[12 + 4 * h..16 + 4 * h] == sk
    requires vs[18 + 5 * h..22 + 5 * h] == hs.hashNoPad(sk + topic)
    ensures var gs := Layout(0, h).Gates(); var w := Generator(hs, Generator(hs, w2, gs[2]), gs[3]);
      && Matches(w, vs) && InputsBound(w, h) && Covers(w, 17 + 4 * h, 17 + 5 * h) && 17 + 5 * h in w
      && Covers(w, 18 + 5 * h, 22 + 5 * h)
  {
    var gs := Layout(0, h).Gates();
    var w3 := Generator(hs, w2, gs[2]);
    assert w3 == w2;
    var w4 := Generator(hs, w3, gs[3]);
    LayoutRuns(h);
    GenHash(hs, w3, vs, 12 + 4 * h, 8, 18 + 5 * h, sk, topic);
    InputsStayBound(w3, w4, h);
    CoversGrow(w3, w4, 17 + 4 * h, 17 + 5 * h);
  }

  /**
   * The generators of the four gates, from bindings faithful to `vs`, add
   * the index bits, the zero and the in-circuit nullifier, all faithful.
   */
  lemma {:induction false} GatesMatch(hs: Hasher, w0: Witness, vs: seq<F>, h: nat, root: Digest, topic: Digest,
                                      flat: seq<F>, sk: Digest, index: F)
    requires Slots(vs, h, root, hs.hashNoPad(sk + topic), topic, flat, sk, index)
    requires Matches(w0, vs) && InputsBound(w0, h)
    ensures var w := Generate(hs, Layout(0, h).Gates(), w0);
      && Matches(w, vs) && InputsBound(w, h) && Covers(w, 17 + 4 * h, 17 + 5 * h) && 17 + 5 * h in w
      && Covers(w, 18 + 5 * h, 22 + 5 * h)
  {
    var gs := Layout(0, h).Gates();
    BitsAndZero(hs, w0, vs, h, index);
    MembershipAndHash(hs, Generator(hs, Generator(hs, w0, gs[0]), gs[1]), vs, h, sk, topic);
    GenerateFour(hs, gs, w0);
  }

  /**
   * From bindings faithful to `vs` that cover the root, topic, siblings,
   * key and index, the generators complete every wire with its value in `vs`.
   */
  lemma {:induction false} GeneratedMatches(hs: Hasher, w0: Witness, vs: seq<F>, h: nat, root: Digest, topic: Digest,
                                            flat: seq<F>, sk: Digest, index: F)
    requires Slots(vs, h, root, hs.hashNoPad(sk + topic), topic, flat, sk, index)
    requires Matches(w0, vs) && InputsBound(w0, h)
    ensures var w := Generate(hs, SemaphoreData(h).constraints, w0);
      Matches(w, vs) && Covers(w, 0, 22 + 5 * h)
  {
    var l := Layout(0, h);
    var cs := ConnectAll(Range(4, 4), Range(18 + 5 * h, 4), 4);
    LayoutRuns(h);
    assert SemaphoreData(h).constraints == l.Gates() + cs;
    GenerateConcat(hs, l.Gates(), cs, w0);
    GatesMatch(hs, w0, vs, h, root, topic, flat, sk, index);
    ConnectsMatch(hs, Generate(hs, l.Gates(), w0), vs, h);
  }

  /** The copy generators complete the public nullifier wires, the last ones left unbound. */
  lemma ConnectsMatch(hs: Hasher, w4: Witness, vs: seq<F>, h: nat)
    requires |vs| == 22 + 5 * h && vs[4..8] == vs[18 + 5 * h..22 + 5 * h] && Matches(w4, vs)
    requires InputsBound(w4, h) && Covers(w4, 17 + 4 * h, 17 + 5 * h) && 17 + 5 * h in w4
    requires Covers(w4, 18 + 5 * h, 22 + 5 * h)
    ensures var w := Generate(hs, ConnectAll(Range(4, 4), Range(18 + 5 * h, 4), 4), w4);
      Matches(w, vs) && Covers(w, 0, 22 + 5 * h)
  {
    GenConnects(hs, w4, vs, 4, 18 + 5 * h, 4);
    var w := Generate(hs, ConnectAll(Range(4, 4), Range(18 + 5 * h, 4), 4), w4);
    InputsStayBound(w4, w, h);
    CoversGrow(w4, w, 17 + 4 * h, 17 + 5 * h);
    CoversGrow(w4, w, 18 + 5 * h, 22 + 5 * h);
    CoversLayout(w, h);
  }

  /** A merge keeps every wire its left operand binds. */
  lemma CoversMerge(a: Witness, b: Witness, lo: nat, hi: nat)
    requires Covers(a, lo, hi)
    ensures Covers(a + b, lo, hi)
  {
  }

  /** Binding one more wire to the value `vs` lists for it keeps `vs` faithful and the wires bound. */
  lemma MatchesUpdate(w: Witness, vs: seq<F>, k: nat, v: F)
    requires Matches(w, vs) && k < |vs| && vs[k] == v
    ensures Matches(w[k := v], vs) && k in w[k := v] && w.Keys <= w[k := v].Keys
  {
  }

  /** The root, key and topic runs, as one map, are faithful to `vs` and cover their slots. */
  lemma {:induction false} KeyRunsMatches(vs: seq<F>, root: Digest, topic: Digest, sk: Digest, h: nat)
    requires 16 + 4 * h <= |vs| && vs[0..4] == root && vs[8..12] == topic && vs[12 + 4 * h..16 + 4 * h] == sk
    ensures var w := KeyRuns(root, sk, topic, 0, h, map[]);
      && Matches(w, vs) && Covers(w, 0, 4) && Covers(w, 8, 12) && Covers(w, 12 + 4 * h, 16 + 4 * h)
  {
    var w1 := map[] + RangeMap(0, root);
    MergeMatches(map[], vs, 0, root);
    var w2 := w1 + RangeMap(12 + 4 * h, sk);
    MergeMatches(w1, vs, 12 + 4 * h, sk);
    CoversMerge(w1, RangeMap(12 + 4 * h, sk), 0, 4);
    MergeMatches(w2, vs, 8, topic);
    CoversMerge(w2, RangeMap(8, topic), 0, 4);
    CoversMerge(w2, RangeMap(8, topic), 12 + 4 * h, 16 + 4 * h);
  }

  /** The prover's bindings, as one map, are faithful to `vs` and cover its five slots. */
  lemma {:induction false} MergedMatches(vs: seq<F>, root: Digest, topic: Digest, path: seq<Digest>, sk: Digest,
                                         index: F)
    requires var h := |path|;
      && |vs| == 22 + 5 * h && vs[0..4] == root && vs[8..12] == topic
      && vs[12..12 + 4 * h] == Flatten(path) && vs[12 + 4 * h..16 + 4 * h] == sk && vs[16 + 4 * h] == index
    ensures var h := |path|; var w := FillRuns(root, sk, topic, index, path, 0, map[]);
      && Matches(w, vs) && Covers(w, 0, 4) && Covers(w, 8, 12) && Covers(w, 12, 12 + 4 * h)
      && Covers(w, 12 + 4 * h, 16 + 4 * h) && 16 + 4 * h in w
  {
    var h := |path|;
    var w3 := KeyRuns(root, sk, topic, 0, h, map[]);
    KeyRunsMatches(vs, root, topic, sk, h);
    MatchesUpdate(w3, vs, 16 + 4 * h, index);
    WithIndexMatches(w3, vs, 16 + 4 * h, index, Flatten(path), h);
  }

  /** Binding the index and then the flattened path on top of the key runs. */
  lemma WithIndexMatches(w3: Witness, vs: seq<F>, k: nat, index: F, flat: seq<F>, h: nat)
    requires Matches(w3[k := index], vs) && k in w3[k := index] && w3.Keys <= w3[k := index].Keys
    requires Covers(w3, 0, 4) && Covers(w3, 8, 12) && Covers(w3, 12 + 4 * h, 16 + 4 * h)
    requires |flat| == 4 * h && 12 + 4 * h <= |vs| && vs[12..12 + 4 * h] == flat
    ensures var w := w3[k := index] + RangeMap(12, flat);
      && Matches(w, vs) && Covers(w, 0, 4) && Covers(w, 8, 12) && Covers(w, 12, 12 + 4 * h)
      && Covers(w, 12 + 4 * h, 16 + 4 * h) && k in w
  {
    MergeMatches(w3[k := index], vs, 12, flat);
  }

  /** The prover's bindings are faithful to `vs` and cover the root, topic, siblings, key and index. */
  lemma {:induction false} FilledMatches(vs: seq<F>, root: Digest, nullifier: Digest, topic: Digest,
                                         path: seq<Digest>, sk: Digest, index: F)
    requires Slots(vs, |path|, root, nullifier, topic, Flatten(path), sk, index)
    ensures var w := Filled(Layout(0, |path|).Targets(), root, sk, topic, index, path, map[]);
      Matches(w, vs) && InputsBound(w, |path|)
  {
    LayoutLaidOut(0, |path|);
    FilledMap(Layout(0, |path|).Targets(), root, sk, topic, index, path, 0, map[]);
    MergedMatches(vs, root, topic, path, sk, index);
  }

  /**
   * Generation from a member's inputs: after the generators run, every wire
   * of the circuit carries the value `WireValues` lists for it, the public
   * nullifier wires included.
   */
  lemma {:induction false} GeneratedAgrees(hs: Hasher, root: Digest, sk: Digest, topic: Digest, index: F,
                                           path: seq<Digest>)
    ensures var h := |path|;
      var w := Filled(Layout(0, h).Targets(), root, sk, topic, index, path, map[]);
      var vs := WireValues(root, hs.hashNoPad(sk + topic), topic, path, sk, index);
      AgreesOn(Generate(hs, SemaphoreData(h).constraints, w), vs, 0, |vs|)
  {
    var h := |path|;
    var nullifier := hs.hashNoPad(sk + topic);
    var vs := WireValues(root, nullifier, topic, path, sk, index);
    FilledMatches(vs, root, nullifier, topic, path, sk, index);
    var w0 := Filled(Layout(0, h).Targets(), root, sk, topic, index, path, map[]);
    GeneratedMatches(hs, w0, vs, h, root, topic, Flatten(path), sk, index);
    MatchesAgree(Generate(hs, SemaphoreData(h).constraints, w0), vs, 0, |vs|);
  }

  /**
   * Proving from a member's bindings succeeds exactly when the member's
   * inputs are in the relation, and the proof then carries the public
   * inputs root, nullifier and topic in that order.
   */
  lemma {:induction false} ProveIffRelation(hs: Hasher, root: Digest, sk: Digest, topic: Digest, index: F,
                                            path: seq<Digest>)
    requires Pow2(|path|) < USIZE_LIMIT
    ensures var h := |path|; var nullifier := hs.hashNoPad(sk + topic);
      var r := Prove(hs, SemaphoreData(h), Filled(Layout(0, h).Targets(), root, sk, topic, index, path, map[]));
      && (r.Ok? <==> Relation(hs, h, root + nullifier + topic, sk, index, path))
      && (r.Ok? ==> r.value.publicInputs == root + nullifier + topic)
  {
    var h := |path|;
    var nullifier := hs.hashNoPad(sk + topic);
    GeneratedAgrees(hs, root, sk, topic, index, path);
    var w := Generate(hs, SemaphoreData(h).constraints,
                      Filled(Layout(0, h).Targets(), root, sk, topic, index, path, map[]));
    SatisfiesIffRelation(hs, w, root, nullifier, topic, path, sk, index);
    PublicReadings(w, root, nullifier, topic, path, sk, index);
  }

  /** From the relation for `pis`, an assignment that satisfies the circuit and yields `pis`. */
  lemma {:induction false} RelationWitness(hs: Hasher, h: nat, pis: seq<F>, sk: Digest, index: nat,
                                           siblings: seq<Digest>)
    requires Pow2(h) < USIZE_LIMIT && Relation(hs, h, pis, sk, index, siblings)
    ensures exists w :: Satisfies(hs, SemaphoreData(h), w) && Values(w, SemaphoreData(h).publicInputs) == pis
  {
    Pow2BelowField(h);
    var idx: F := index;
    var root: Digest, nullifier: Digest, topic: Digest := pis[0..4], pis[4..8], pis[8..12];
    assert root + nullifier + topic == pis;
    var vs := WireValues(root, nullifier, topic, siblings, sk, idx);
    var w := RangeMap(0, vs);
    assert AgreesOn(w, vs, 0, |vs|);
    WireReadings(w, vs, root, nullifier, topic, siblings, sk, idx);
    CompleteFromRelation(hs, w, root, nullifier, topic, siblings, sk, idx);
    PublicReadings(w, root, nullifier, topic, siblings, sk, idx);
  }

  /**
   * The circuit of height h has a satisfying assignment with public inputs
   * `pis` exactly when some key, index and path put `pis` in the relation.
   */
  lemma {:induction false} CircuitIffRelation(hs: Hasher, h: nat, pis: seq<F>)
    requires Pow2(h) < USIZE_LIMIT
    ensures (exists w :: Satisfies(hs, SemaphoreData(h), w) && Values(w, SemaphoreData(h).publicInputs) == pis)
        <==> (exists sk: Digest, index: nat, siblings: seq<Digest> :: Relation(hs, h, pis, sk, index, siblings))
  {
    var l := Layout(0, h);
    if exists w :: Satisfies(hs, SemaphoreData(h), w) && Values(w, SemaphoreData(h).publicInputs) == pis {
      var w :| Satisfies(hs, SemaphoreData(h), w) && Values(w, SemaphoreData(h).publicInputs) == pis;
      Sound(hs, h, w);
      var sk: Digest := Values(w, l.Key());
      assert Relation(hs, h, pis, sk, w[l.Index()], DigestValues(w, Elements(l.Siblings())));
    }
    if exists sk: Digest, index: nat, siblings: seq<Digest> :: Relation(hs, h, pis, sk, index, siblings) {
      var sk: Digest, index: nat, siblings: seq<Digest> :| Relation(hs, h, pis, sk, index, siblings);
      RelationWitness(hs, h, pis, sk, index, siblings);
    }
  }
}
