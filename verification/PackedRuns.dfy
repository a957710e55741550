/** What a packed stream costs, block by block: where it divides, and how the blocks between
    the divisions are written. */
module PackedRuns {
  import opened Bits
  import opened Bytes
  import opened PackedFormat

  predicate IsZero(w: Word) {
    CountZeros(w) == 8
  }

  /** Words a verbatim run takes up, and those that can start one. */
  predicate IsDense(w: Word) {
    CountZeros(w) < 2
  }

  predicate IsFull(w: Word) {
    CountZeros(w) == 0
  }

  /** The word is added to the run, and nothing is written yet. */
  predicate Joins(run: Run, w: Word) {
    || (run.ZeroRun? && run.count < 255 && IsZero(w))
    || (run.VerbatimRun? && |run.bytes| < 8 * 256 && IsDense(w))
  }

  lemma NewRun(run: Run, w: Word)
    requires !Joins(run, w)
    ensures PackWord(run, w) == (PackWord(NoRun, w).0, Flush(run) + PackWord(NoRun, w).1)
  {
    hide CountZeros;
    hide Group;
    assert Flush(run) + [] == Flush(run);
    if CountZeros(w) != 8 && CountZeros(w) != 0 {
      assert [] + Group(w) == Group(w);
    }
  }

  lemma ZeroIsZero()
    ensures IsZero(ZERO)
  {}

  lemma PackOne(w: Word)
    ensures PackWords([w]) == PackWord(NoRun, w)
  {
    assert [w][..0] == [] && [w][0] == w;
    assert PackWords([]) == (NoRun, []);
    assert [] + PackWord(NoRun, w).1 == PackWord(NoRun, w).1;
  }

  lemma PackQuiet(run: Run, w: Word)
    requires PackWord(run, w).1 == []
    ensures PackMore((run, []), w) == (PackWord(run, w).0, [])
  {
    assert [] + PackWord(run, w).1 == PackWord(run, w).1;
  }

  lemma PackNone()
    ensures Packed([]) == []
  {}

  lemma PackLast(words: seq<Word>, w: Word)
    ensures PackWords(words + [w]) == PackMore(PackWords(words), w)
  {
    assert (words + [w])[..|words|] == words;
  }

  lemma {:induction false} PackAfter(a: seq<Word>, b: seq<Word>)
    requires b != [] && !Joins(PackWords(a).0, b[0])
    ensures PackWords(a + b) == (PackWords(b).0, Packed(a) + PackWords(b).1)
    decreases |b|
  {
    hide PackWords;
    var n := |b| - 1;
    var front, w := b[..n], b[n];
    assert b == front + [w] && a + b == a + front + [w];
    PackLast(front, w);
    PackLast(a + front, w);
    if n == 0 {
      assert a + front == a && b == [w];
      PackOne(w);
      NewRun(PackWords(a).0, w);
    } else {
      PackAfter(a, front);
    }
    Regroup(Packed(a), PackWords(front).1, PackWord(PackWords(front).0, w).1);
    Regroup(PackWords(a).1, Flush(PackWords(a).0), PackWord(NoRun, w).1);
  }

  lemma Regroup(a: seq<byte>, b: seq<byte>, c: seq<byte>)
    ensures a + (b + c) == a + b + c
  {}

  /** Packing divides wherever the next word does not join the run before it. */
  lemma PackedDivides(a: seq<Word>, b: seq<Word>)
    requires b != [] ==> !Joins(PackWords(a).0, b[0])
    ensures Packed(a + b) == Packed(a) + Packed(b)
  {
    if b == [] {
      assert a + b == a && Packed(b) == [];
      assert Packed(a) + [] == Packed(a);
    } else {
      hide PackWords;
      PackAfter(a, b);
      Regroup(Packed(a), PackWords(b).1, Flush(PackWords(b).0));
    }
  }

  /** What kind of run is open tells what kind of word came last. */
  lemma OpenRun(a: seq<Word>)
    ensures a == [] ==> PackWords(a).0.NoRun?
    ensures a != [] ==> (PackWords(a).0.ZeroRun? <==> IsZero(a[|a| - 1]))
    ensures a != [] && PackWords(a).0.VerbatimRun? ==> IsDense(a[|a| - 1])
  {}

  // Zero words.

  /** A run of `n` zero words: two bytes for every 256 of them, or part of 256. */
  function ZeroRuns(n: nat): seq<byte> {
    if n == 0 then [] else if n <= 256 then [0, n - 1] else [0, 255] + ZeroRuns(n - 256)
  }

  lemma {:induction false} ZeroRunsSize(n: nat)
    ensures |ZeroRuns(n)| == 2 * ((n + 255) / 256)
  {
    if n > 256 {
      ZeroRunsSize(n - 256);
    }
  }

  lemma {:induction false} OneZeroRun(n: nat)
    requires 1 <= n <= 256
    ensures PackWords(seq(n, _ => ZERO)) == (ZeroRun(n - 1), [])
    decreases n
  {
    ZeroIsZero();
    hide PackWords;
    hide CountZeros;
    if n > 1 {
      OneZeroRun(n - 1);
      PackLast(seq(n - 1, _ => ZERO), ZERO);
      PackQuiet(ZeroRun(n - 2), ZERO);
      assert seq(n, _ => ZERO) == seq(n - 1, _ => ZERO) + [ZERO];
    } else {
      PackOne(ZERO);
      assert seq(n, _ => ZERO) == [ZERO];
    }
  }

  lemma {:induction false} PackedZeros(n: nat)
    ensures Packed(seq(n, _ => ZERO)) == ZeroRuns(n)
    ensures |Packed(seq(n, _ => ZERO))| == 2 * ((n + 255) / 256)
  {
    ZeroRunsSize(n);
    PackNone();
    hide PackWords;
    hide CountZeros;
    if n == 0 {
      assert seq(n, _ => ZERO) == [];
    } else if n <= 256 {
      OneZeroRun(n);
      assert [] + Flush(ZeroRun(n - 1)) == [0, n - 1];
    } else {
      OneZeroRun(256);
      assert seq(n, _ => ZERO) == seq(256, _ => ZERO) + seq(n - 256, _ => ZERO);
      PackedDivides(seq(256, _ => ZERO), seq(n - 256, _ => ZERO));
      PackedZeros(n - 256);
    }
  }

  /** A maximal block of `n` zero words costs two bytes for every 256 of them, or part of 256,
      wherever it stands, and what is around it packs as if it were not there. */
  lemma ZeroBlock(a: seq<Word>, n: nat, b: seq<Word>)
    requires a != [] ==> !IsZero(a[|a| - 1])
    requires n > 0 && (b != [] ==> !IsZero(b[0]))
    ensures Packed(a + seq(n, _ => ZERO) + b) == Packed(a) + ZeroRuns(n) + Packed(b)
    ensures |ZeroRuns(n)| == 2 * ((n + 255) / 256)
  {
    var zeros := seq(n, _ => ZERO);
    ZeroRunsSize(n);
    PackedZeros(n);
    ZeroIsZero();
    hide PackWords;
    hide CountZeros;
    OpenRun(a);
    PackedDivides(a, zeros);
    OpenRun(a + zeros);
    assert (a + zeros)[|a + zeros| - 1] == ZERO;
    PackedDivides(a + zeros, b);
  }

  // Words without zeros.

  lemma {:induction false} OneVerbatimRun(d: seq<Word>)
    requires 1 <= |d| <= 256 && IsFull(d[0]) && forall i :: 0 <= i < |d| ==> IsDense(d[i])
    ensures PackWords(d) == (VerbatimRun(Join(d)), [])
    decreases |d|
  {
    hide PackWords;
    hide CountZeros;
    hide Join;
    NoWords();
    var n := |d| - 1;
    if n > 0 {
      OneVerbatimRun(d[..n]);
      JoinLast(d[..n], d[n]);
      PackLast(d[..n], d[n]);
      PackQuiet(VerbatimRun(Join(d[..n])), d[n]);
      assert d[..n] + [d[n]] == d;
    } else {
      assert d == [d[0]];
      PackOne(d[0]);
      JoinLast([], d[0]);
      assert [] + [d[0]] == d && Join([]) + d[0] == d[0];
    }
  }

  lemma NoWords()
    ensures Join([]) == []
  {}

  lemma {:induction false} JoinLast(words: seq<Word>, w: Word)
    ensures Join(words + [w]) == Join(words) + w
  {
    if words == [] {
      assert [] + [w] == [w] && [w][1..] == [] && w + [] == w && [] + w == w;
    } else {
      assert (words + [w])[1..] == words[1..] + [w];
      JoinLast(words[1..], w);
      assert words[0] + (Join(words[1..]) + w) == words[0] + Join(words[1..]) + w;
    }
  }

  /** A block of up to 256 dense words that starts with a full one costs two bytes more than
      its words, if it is not part of a longer run. */
  lemma VerbatimBlock(a: seq<Word>, d: seq<Word>, b: seq<Word>)
    requires a != [] ==> !IsDense(a[|a| - 1])
    requires 1 <= |d| <= 256 && IsFull(d[0]) && forall i :: 0 <= i < |d| ==> IsDense(d[i])
    requires b != [] && |d| < 256 ==> !IsDense(b[0])
    ensures |Join(d)| == 8 * |d| && Join(d)[..8] == d[0]
    ensures Packed(a + d + b) == Packed(a) + ([255] + d[0] + [|d| - 1] + Join(d)[8..]) + Packed(b)
  {
    hide PackWords;
    hide CountZeros;
    hide Join;
    PackedVerbatim(d);
    OpenRun(a);
    PackedDivides(a, d);
    OneVerbatimRun(d);
    PackAfter(a, d);
    PackedDivides(a + d, b);
  }

  lemma PackedVerbatim(d: seq<Word>)
    requires 1 <= |d| <= 256 && IsFull(d[0]) && forall i :: 0 <= i < |d| ==> IsDense(d[i])
    ensures |Join(d)| == 8 * |d| && Join(d)[..8] == d[0]
    ensures Packed(d) == [255] + d[0] + [|d| - 1] + Join(d)[8..]
  {
    hide PackWords;
    hide CountZeros;
    hide Join;
    OneVerbatimRun(d);
    JoinFirst(d);
    assert |Join(d)| / 8 - 1 == |d| - 1;
    assert [] + VerbatimGroup(Join(d)) == VerbatimGroup(Join(d));
  }

  lemma JoinFirst(d: seq<Word>)
    requires d != []
    ensures |Join(d)| == 8 * |d| && Join(d)[..8] == d[0]
  {}

  /** Any other word is its tag and its non-zero bytes. */
  lemma SingleWord(a: seq<Word>, w: Word, b: seq<Word>)
    requires a != [] ==> !IsDense(a[|a| - 1])
    requires !IsZero(w) && !IsFull(w)
    ensures Packed(a + [w] + b) == Packed(a) + Group(w) + Packed(b)
  {
    OpenRun(a);
    PackOne(w);
    hide PackWords;
    hide CountZeros;
    hide Group;
    assert [] + Group(w) + [] == Group(w);
    PackedDivides(a, [w]);
    PackAfter(a, [w]);
    PackedDivides(a + [w], b);
  }
}
