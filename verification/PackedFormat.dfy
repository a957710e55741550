/** The packed stream as a mathematical object: what a sequence of words packs to, what a
    packed stream unpacks to, and that the second inverts the first. */
module PackedFormat {
  import opened Bits
  import opened Bytes

  type Word = w: seq<byte> | |w| == 8 witness [0, 0, 0, 0, 0, 0, 0, 0]

  const ZERO: Word := [0, 0, 0, 0, 0, 0, 0, 0]

  /** Words whose count is still being tallied. */
  datatype Run =
    | NoRun
      // An all-zero word and `count` further ones.
    | ZeroRun(count: nat)
      // An all-non-zero word and the words copied verbatim after it.
    | VerbatimRun(bytes: seq<byte>)

  function CountZeros(w: seq<byte>): (n: nat)
    ensures n <= |w|
  {
    if w == [] then 0 else (if w[0] == 0 then 1 else 0) + CountZeros(w[1..])
  }

  /** The tag: bit `i` is set iff byte `i` is non-zero. */
  function Tag(w: seq<byte>): nat {
    if w == [] then 0 else (if w[0] != 0 then 1 else 0) + 2 * Tag(w[1..])
  }

  function NonZeros(w: seq<byte>): seq<byte> {
    if w == [] then [] else (if w[0] != 0 then [w[0]] else []) + NonZeros(w[1..])
  }

  function CountOnes(tag: nat, n: nat): (k: nat)
    ensures k <= n
    decreases n, tag
  {
    if n == 0 then 0 else tag % 2 + CountOnes(tag / 2, n - 1)
  }

  /** `bytes` spread over the set bits of `tag`, zero elsewhere. */
  function Spread(tag: nat, n: nat, bytes: seq<byte>): (r: seq<byte>)
    requires |bytes| >= CountOnes(tag, n)
    ensures |r| == n
    decreases n, tag, bytes
  {
    if n == 0 then []
    else if tag % 2 == 0 then [0] + Spread(tag / 2, n - 1, bytes)
    else [bytes[0]] + Spread(tag / 2, n - 1, bytes[1..])
  }

  lemma {:induction false} TagFacts(w: seq<byte>)
    ensures Tag(w) < Pow2(|w|)
    ensures |NonZeros(w)| == |w| - CountZeros(w) == CountOnes(Tag(w), |w|)
    ensures Tag(w) == 0 <==> CountZeros(w) == |w|
    ensures Tag(w) == Pow2(|w|) - 1 <==> CountZeros(w) == 0
  {
    if w != [] {
      TagFacts(w[1..]);
    }
  }

  /** Bit `i` of the tag tells about byte `i`. */
  lemma {:induction false} TagBit(w: seq<byte>, i: nat)
    requires i < |w|
    ensures ShiftRight(Tag(w), i) % 2 == 1 <==> w[i] != 0
    decreases w
  {
    var rest := Tag(w[1..]);
    assert Tag(w) / 2 == rest && (Tag(w) % 2 == 1 <==> w[0] != 0);
    if i > 0 {
      TagBit(w[1..], i - 1);
    }
  }

  /** The non-zero bytes keep their order. */
  lemma {:induction false} NonZerosAppend(a: seq<byte>, b: seq<byte>)
    ensures NonZeros(a + b) == NonZeros(a) + NonZeros(b)
    ensures |a| == 1 ==> NonZeros(a) == if a[0] == 0 then [] else a
  {
    if a == [] {
      assert a + b == b;
    } else {
      assert (a + b)[1..] == a[1..] + b;
      NonZerosAppend(a[1..], b);
    }
  }

  /** One bit of the tag at a time. */
  lemma SpreadStep(tag: nat, n: nat, bytes: seq<byte>)
    requires n > 0 && |bytes| == CountOnes(tag, n)
    ensures tag % 2 == 0 ==> |bytes| == CountOnes(tag / 2, n - 1)
                             && Spread(tag, n, bytes) == [0] + Spread(tag / 2, n - 1, bytes)
    ensures tag % 2 == 1 ==> |bytes| == 1 + CountOnes(tag / 2, n - 1)
                             && Spread(tag, n, bytes) == [bytes[0]] + Spread(tag / 2, n - 1, bytes[1..])
  {}

  lemma SpreadCons(b: byte, tag: nat, n: nat, bytes: seq<byte>)
    requires |bytes| == CountOnes(tag, n)
    ensures b != 0 ==> CountOnes(1 + 2 * tag, n + 1) == |bytes| + 1
                       && Spread(1 + 2 * tag, n + 1, [b] + bytes) == [b] + Spread(tag, n, bytes)
    ensures CountOnes(2 * tag, n + 1) == |bytes|
    ensures Spread(2 * tag, n + 1, bytes) == [0] + Spread(tag, n, bytes)
  {
    assert (1 + 2 * tag) / 2 == tag && (1 + 2 * tag) % 2 == 1;
    assert (2 * tag) / 2 == tag && (2 * tag) % 2 == 0;
    assert ([b] + bytes)[1..] == bytes;
  }

  lemma {:induction false} SpreadInverts(w: seq<byte>, n: nat)
    requires n == |w|
    ensures CountOnes(Tag(w), n) == |NonZeros(w)|
    ensures Spread(Tag(w), n, NonZeros(w)) == w
  {
    if w != [] {
      SpreadInverts(w[1..], n - 1);
      SpreadCons(w[0], Tag(w[1..]), n - 1, NonZeros(w[1..]));
      assert [w[0]] + w[1..] == w;
      assert [] + NonZeros(w[1..]) == NonZeros(w[1..]);
    }
  }

  lemma {:induction false} AllZero(w: seq<byte>)
    requires CountZeros(w) == |w|
    ensures w == Zeros(|w|)
  {
    if w != [] {
      AllZero(w[1..]);
    }
  }

  // Packing.

  /** The bytes a finished run writes. */
  function Flush(run: Run): seq<byte> {
    match run
    case NoRun => []
    case ZeroRun(count) => [0, count % 256]
    case VerbatimRun(bytes) =>
      if |bytes| < 8 then [] else VerbatimGroup(bytes)
  }

  function VerbatimGroup(bytes: seq<byte>): seq<byte>
    requires |bytes| >= 8
  {
    [255] + bytes[..8] + [(|bytes| / 8 - 1) % 256] + bytes[8..]
  }

  /** A tag byte followed by the word's non-zero bytes. */
  function Group(w: Word): seq<byte> {
    TagIsByte(w);
    [Tag(w)] + NonZeros(w)
  }

  lemma TagIsByte(w: Word)
    ensures Tag(w) < 256
  {
    TagFacts(w);
    Pow2Of8();
  }

  /** The run after an all-zero word, and the bytes written on the way. */
  function PackZero(run: Run): (Run, seq<byte>) {
    if run.ZeroRun? && run.count < 255 then (ZeroRun(run.count + 1), [])
    else (ZeroRun(0), Flush(run))
  }

  /** The run after any other word, and the bytes written on the way. */
  function PackOther(run: Run, w: Word): (Run, seq<byte>) {
    if run.VerbatimRun? && CountZeros(w) < 2 && |run.bytes| < 8 * 256 then (VerbatimRun(run.bytes + w), [])
    else if CountZeros(w) == 0 then (VerbatimRun(w), Flush(run))
    else (NoRun, Flush(run) + Group(w))
  }

  function PackWord(run: Run, w: Word): (Run, seq<byte>) {
    if CountZeros(w) == 8 then PackZero(run) else PackOther(run, w)
  }

  /** One more word after the pending run and written bytes of `packed`. */
  function PackMore(packed: (Run, seq<byte>), w: Word): (Run, seq<byte>) {
    var (run, more) := PackWord(packed.0, w);
    (run, packed.1 + more)
  }

  /** The pending run and the bytes written after packing `words`. */
  function PackWords(words: seq<Word>): (Run, seq<byte>) {
    if words == [] then (NoRun, [])
    else PackMore(PackWords(words[..|words| - 1]), words[|words| - 1])
  }

  function Packed(words: seq<Word>): seq<byte> {
    PackWords(words).1 + Flush(PackWords(words).0)
  }

  /** A stream split into words. */
  function Words(bytes: seq<byte>): (r: seq<Word>)
    requires |bytes| % 8 == 0
    ensures |r| == |bytes| / 8
  {
    if bytes == [] then [] else Words(bytes[..|bytes| - 8]) + [bytes[|bytes| - 8..]]
  }

  function Join(words: seq<Word>): (r: seq<byte>)
    ensures |r| == 8 * |words|
  {
    if words == [] then [] else words[0] + Join(words[1..])
  }

  /** `bytes` padded with zeros to a whole number of words. */
  function Padded(bytes: seq<byte>): (r: seq<byte>)
    ensures |r| % 8 == 0 && |bytes| <= |r| < |bytes| + 8
  {
    bytes + Zeros((8 - |bytes| % 8) % 8)
  }

  function Pack(bytes: seq<byte>): seq<byte> {
    Packed(Words(Padded(bytes)))
  }

  // Unpacking.

  /** One word off the stream: the end of it, a truncated group, or a word and what is
      left of the run it came from. */
  datatype Step =
    | End
    | Truncated
    | Got(word: Word, zeros: nat, verbatim: nat, rest: seq<byte>)

  /** The group at the head of `rest`. */
  function UnpackGroup(rest: seq<byte>): (s: Step)
    requires rest != []
    ensures s.Got? ==> |s.rest| < |rest|
  {
    if rest[0] == 0 then
      if |rest| < 2 then Truncated else Got(ZERO, rest[1], 0, rest[2..])
    else if rest[0] == 255 then
      if |rest| < 10 then Truncated else Got(rest[1..9], 0, rest[9], rest[10..])
    else
      var k := CountOnes(rest[0], 8);
      if |rest| < 1 + k then Truncated else Got(Spread(rest[0], 8, rest[1..1 + k]), 0, 0, rest[1 + k..])
  }

  function UnpackWord(zeros: nat, verbatim: nat, rest: seq<byte>): (s: Step)
    ensures s.Got? ==> |s.rest| < |rest| || (s.rest == rest && s.zeros < zeros)
  {
    if zeros > 0 then Got(ZERO, zeros - 1, verbatim, rest)
    else if verbatim > 0 then
      if |rest| < 8 then Truncated else Got(rest[..8], 0, verbatim - 1, rest[8..])
    else if rest == [] then End
    else UnpackGroup(rest)
  }

  /** The words read before the end of the stream, or before it turns out truncated. */
  datatype Unpacked = Unpacked(words: seq<Word>, complete: bool)

  function Unpack(zeros: nat, verbatim: nat, rest: seq<byte>): Unpacked
    decreases |rest|, zeros
  {
    match UnpackWord(zeros, verbatim, rest)
    case End => Unpacked([], true)
    case Truncated => Unpacked([], false)
    case Got(word, zeros', verbatim', rest') =>
      var u := Unpack(zeros', verbatim', rest');
      Unpacked([word] + u.words, u.complete)
  }

  lemma UnpackWordAppend(zeros: nat, verbatim: nat, a: seq<byte>, b: seq<byte>)
    ensures var s := UnpackWord(zeros, verbatim, a);
            s.Got? ==> UnpackWord(zeros, verbatim, a + b) == s.(rest := s.rest + b)
    ensures UnpackWord(zeros, verbatim, a).End? ==> zeros == 0 && verbatim == 0 && a == []
  {
    var ab := a + b;
    if zeros == 0 && verbatim > 0 && |a| >= 8 {
      assert ab[..8] == a[..8] && ab[8..] == a[8..] + b;
    } else if zeros == 0 && verbatim == 0 && a != [] {
      assert ab[0] == a[0];
      if a[0] == 0 {
        if |a| >= 2 {
          assert ab[2..] == a[2..] + b;
        }
      } else if a[0] == 255 {
        if |a| >= 10 {
          assert ab[1..9] == a[1..9] && ab[10..] == a[10..] + b;
        }
      } else {
        var k := CountOnes(a[0], 8);
        if |a| >= 1 + k {
          assert ab[1..1 + k] == a[1..1 + k] && ab[1 + k..] == a[1 + k..] + b;
        }
      }
    }
  }

  /** Whole groups unpack independently of what follows them. */
  lemma {:induction false} UnpackAppend(zeros: nat, verbatim: nat, a: seq<byte>, b: seq<byte>)
    requires Unpack(zeros, verbatim, a).complete
    ensures Unpack(zeros, verbatim, a + b)
         == Unpacked(Unpack(zeros, verbatim, a).words + Unpack(0, 0, b).words, Unpack(0, 0, b).complete)
    decreases |a|, zeros
  {
    UnpackWordAppend(zeros, verbatim, a, b);
    match UnpackWord(zeros, verbatim, a)
    case End =>
      assert a + b == b;
    case Got(word, zeros', verbatim', rest') =>
      UnpackAppend(zeros', verbatim', rest', b);
      ConsAppend(word, Unpack(zeros', verbatim', rest').words, Unpack(0, 0, b).words);
  }

  lemma ConsAppend(w: Word, a: seq<Word>, b: seq<Word>)
    ensures [w] + (a + b) == [w] + a + b
  {}

  /** The words a pending run stands for. */
  function RunWords(run: Run): seq<Word>
    requires RunOk(run)
  {
    match run
    case NoRun => []
    case ZeroRun(count) => seq(count + 1, _ => ZERO)
    case VerbatimRun(bytes) => Words(bytes)
  }

  /** A zero run counts 1 to 256 words, a verbatim run 1 to 256, so each count fits a byte. */
  predicate RunOk(run: Run) {
    match run
    case NoRun => true
    case ZeroRun(count) => count < 256
    case VerbatimRun(bytes) => |bytes| % 8 == 0 && 8 <= |bytes| <= 8 * 256 && CountZeros(bytes[..8]) == 0
  }

  lemma {:induction false} ZerosUnpack(n: nat)
    ensures Unpack(n, 0, []) == Unpacked(seq(n, _ => ZERO), true)
  {
    if n > 0 {
      ZerosUnpack(n - 1);
      assert [ZERO] + seq(n - 1, _ => ZERO) == seq(n, _ => ZERO);
    } else {
      assert seq(0, _ => ZERO) == [];
    }
  }

  lemma {:induction false} WordsFront(bytes: seq<byte>)
    requires |bytes| % 8 == 0 && bytes != []
    ensures Words(bytes) == [bytes[..8]] + Words(bytes[8..])
  {
    if |bytes| == 8 {
      assert bytes[..8] == bytes && bytes[0..] == bytes;
    } else {
      var front := bytes[..|bytes| - 8];
      WordsFront(front);
      assert front[..8] == bytes[..8];
      assert front[8..] == bytes[8..][..|bytes[8..]| - 8];
      assert bytes[8..][|bytes[8..]| - 8..] == bytes[|bytes| - 8..];
    }
  }

  lemma {:induction false} VerbatimUnpacks(bytes: seq<byte>)
    requires |bytes| % 8 == 0
    ensures Unpack(0, |bytes| / 8, bytes) == Unpacked(Words(bytes), true)
  {
    if bytes != [] {
      VerbatimUnpacks(bytes[8..]);
      WordsFront(bytes);
    }
  }

  lemma VerbatimFlushUnpacks(bytes: seq<byte>)
    requires RunOk(VerbatimRun(bytes))
    ensures Unpack(0, 0, Flush(VerbatimRun(bytes))) == Unpacked(Words(bytes), true)
  {
    var f := Flush(VerbatimRun(bytes));
    var more := bytes[8..];
    assert f[1..9] == bytes[..8] && f[10..] == more && f[9] == |more| / 8;
    assert UnpackWord(0, 0, f) == Got(bytes[..8], 0, |more| / 8, more);
    VerbatimUnpacks(more);
    WordsFront(bytes);
  }

  lemma ZeroFlushUnpacks(count: nat)
    requires count < 256
    ensures Unpack(0, 0, Flush(ZeroRun(count))) == Unpacked(seq(count + 1, _ => ZERO), true)
  {
    var f := Flush(ZeroRun(count));
    assert f[2..] == [];
    assert UnpackWord(0, 0, f) == Got(ZERO, count, 0, []);
    ZerosUnpack(count);
    assert [ZERO] + seq(count, _ => ZERO) == seq(count + 1, _ => ZERO);
  }

  lemma FlushUnpacks(run: Run)
    requires RunOk(run)
    ensures Unpack(0, 0, Flush(run)) == Unpacked(RunWords(run), true)
  {
    match run
    case NoRun =>
    case ZeroRun(count) => ZeroFlushUnpacks(count);
    case VerbatimRun(bytes) => VerbatimFlushUnpacks(bytes);
  }

  lemma TagUnpacks(w: Word)
    requires 0 < CountZeros(w) < 8
    ensures 0 < Tag(w) < 255
    ensures Unpack(0, 0, Group(w)) == Unpacked([w], true)
  {
    TagRange(w);
    GroupUnpacks(w);
    EmptyUnpacks();
  }

  lemma TagRange(w: Word)
    requires 0 < CountZeros(w) < 8
    ensures 0 < Tag(w) < 255
  {
    TagFacts(w);
    Pow2Of8();
  }

  lemma GroupUnpacks(w: Word)
    requires 0 < Tag(w) < 255
    ensures UnpackWord(0, 0, Group(w)) == Got(w, 0, 0, [])
  {
    SpreadInverts(w, 8);
    GroupStep(Tag(w), NonZeros(w));
  }

  lemma GroupStep(tag: byte, bytes: seq<byte>)
    requires 0 < tag < 255 && |bytes| == CountOnes(tag, 8)
    ensures UnpackWord(0, 0, [tag] + bytes) == Got(Spread(tag, 8, bytes), 0, 0, [])
  {
    var g := [tag] + bytes;
    assert g[0] == tag;
    Slices(tag, bytes);
  }

  lemma Slices(tag: byte, bytes: seq<byte>)
    ensures ([tag] + bytes)[1..1 + |bytes|] == bytes && ([tag] + bytes)[1 + |bytes|..] == []
  {}

  lemma Pow2Of8()
    ensures Pow2(8) == 256
  {
    assert Pow2(4) == 16;
    assert Pow2(6) == 64;
  }

  /** What has been written and is pending stands for `words`. */
  predicate StandsFor(packed: (Run, seq<byte>), words: seq<Word>) {
    && RunOk(packed.0)
    && Unpack(0, 0, packed.1).complete
    && Unpack(0, 0, packed.1).words + RunWords(packed.0) == words
  }

  lemma EmptyUnpacks()
    ensures Unpack(0, 0, []) == Unpacked([], true)
  {}

  lemma NothingWritten(run: Run)
    requires RunOk(run)
    ensures StandsFor((run, []), RunWords(run))
  {
    EmptyUnpacks();
    assert [] + RunWords(run) == RunWords(run);
  }

  lemma WordsSnoc(bytes: seq<byte>, w: Word)
    requires |bytes| % 8 == 0
    ensures Words(bytes + w) == Words(bytes) + [w]
  {
    var more := bytes + w;
    assert more[..|more| - 8] == bytes && more[|more| - 8..] == w;
  }

  lemma ExtendVerbatimRun(bytes: seq<byte>, w: Word)
    requires RunOk(VerbatimRun(bytes)) && |bytes| < 8 * 256
    ensures RunOk(VerbatimRun(bytes + w))
  {
    assert (bytes + w)[..8] == bytes[..8];
  }

  /** Writing out `run` and then a group `tail`, leaving `run'` pending. */
  lemma RestartUnpacks(run: Run, tail: seq<byte>, run': Run, w: Word)
    requires RunOk(run) && StandsFor((run', tail), [w])
    ensures StandsFor((run', Flush(run) + tail), RunWords(run) + [w])
  {
    FlushUnpacks(run);
    UnpackAppend(0, 0, Flush(run), tail);
    AssociativeWords(RunWords(run), Unpack(0, 0, tail).words, RunWords(run'));
  }

  lemma AssociativeWords(a: seq<Word>, b: seq<Word>, c: seq<Word>)
    ensures a + b + c == a + (b + c)
  {}

  lemma Restart(run: Run, run': Run, w: Word)
    requires RunOk(run) && RunOk(run') && RunWords(run') == [w]
    ensures StandsFor((run', Flush(run)), RunWords(run) + [w])
  {
    NothingWritten(run');
    RestartUnpacks(run, [], run', w);
    assert Flush(run) + [] == Flush(run);
  }

  lemma TaggedWord(w: Word)
    requires 0 < CountZeros(w) < 8
    ensures 0 < Tag(w) < 255 && StandsFor((NoRun, Group(w)), [w])
  {
    TagUnpacks(w);
    assert [w] + [] == [w];
  }

  lemma PackZeroWord(run: Run)
    requires RunOk(run)
    ensures StandsFor(PackZero(run), RunWords(run) + [ZERO])
  {
    if run.ZeroRun? && run.count < 255 {
      NothingWritten(ZeroRun(run.count + 1));
      assert RunWords(ZeroRun(run.count + 1)) == RunWords(run) + [ZERO];
    } else {
      assert RunWords(ZeroRun(0)) == [ZERO];
      Restart(run, ZeroRun(0), ZERO);
    }
  }

  lemma PackOtherWord(run: Run, w: Word)
    requires RunOk(run) && CountZeros(w) < 8
    ensures StandsFor(PackOther(run, w), RunWords(run) + [w])
  {
    if run.VerbatimRun? && CountZeros(w) < 2 && |run.bytes| < 8 * 256 {
      ExtendVerbatimRun(run.bytes, w);
      NothingWritten(VerbatimRun(run.bytes + w));
      WordsSnoc(run.bytes, w);
    } else if CountZeros(w) == 0 {
      FreshVerbatimRun(w);
      Restart(run, VerbatimRun(w), w);
    } else {
      TaggedWord(w);
      RestartUnpacks(run, Group(w), NoRun, w);
    }
  }

  lemma FreshVerbatimRun(w: Word)
    requires CountZeros(w) == 0
    ensures RunOk(VerbatimRun(w)) && RunWords(VerbatimRun(w)) == [w]
  {
    assert w[..8] == w && w[8..] == [];
    WordsFront(w);
  }

  /** One more word: what was written plus what is pending stands for one more word. */
  lemma PackWordUnpacks(run: Run, w: Word)
    requires RunOk(run)
    ensures StandsFor(PackWord(run, w), RunWords(run) + [w])
  {
    if CountZeros(w) == 8 {
      AllZero(w);
      assert w == ZERO;
      PackZeroWord(run);
    } else {
      PackOtherWord(run, w);
    }
  }

  /** What holds of nothing and is kept by each word holds of every stream of words. */
  lemma {:induction false} PackingInduction(words: seq<Word>, P: ((Run, seq<byte>), seq<Word>) -> bool)
    requires P((NoRun, []), [])
    requires forall packed, front, w :: P(packed, front) ==> P(PackMore(packed, w), front + [w])
    ensures P(PackWords(words), words)
  {
    if words != [] {
      var front, w := words[..|words| - 1], words[|words| - 1];
      PackingInduction(front, P);
      assert words == front + [w];
    }
  }

  lemma PackWordsUnpacks(words: seq<Word>)
    ensures StandsFor(PackWords(words), words)
  {
    NothingWritten(NoRun);
    forall packed, front, w | StandsFor(packed, front)
      ensures StandsFor(PackMore(packed, w), front + [w])
    {
      PackMoreUnpacks(packed, front, w);
    }
    PackingInduction(words, (packed, front) => StandsFor(packed, front));
  }

  lemma PackSnoc(front: seq<Word>, w: Word)
    ensures PackWords(front + [w]) == PackMore(PackWords(front), w)
  {
    assert (front + [w])[..|front|] == front;
  }

  lemma PackMoreUnpacks(packed: (Run, seq<byte>), front: seq<Word>, w: Word)
    requires StandsFor(packed, front)
    ensures StandsFor(PackMore(packed, w), front + [w])
  {
    PackWordUnpacks(packed.0, w);
    var more, run' := PackWord(packed.0, w).1, PackWord(packed.0, w).0;
    UnpackAppend(0, 0, packed.1, more);
    JoinParts(Unpack(0, 0, packed.1).words, RunWords(packed.0), w, front, Unpack(0, 0, more).words, RunWords(run'));
  }

  lemma JoinParts(a: seq<Word>, r: seq<Word>, w: Word, front: seq<Word>, b: seq<Word>, r': seq<Word>)
    requires a + r == front && b + r' == r + [w]
    ensures a + b + r' == front + [w]
  {
    assert a + b + r' == a + (b + r');
    assert a + (r + [w]) == a + r + [w];
  }

  /** Unpacking inverts packing. */
  lemma UnpackInvertsPacked(words: seq<Word>)
    ensures Unpack(0, 0, Packed(words)) == Unpacked(words, true)
  {
    PackWordsUnpacks(words);
    var packed := PackWords(words);
    FlushUnpacks(packed.0);
    UnpackAppend(0, 0, packed.1, Flush(packed.0));
  }

  lemma {:induction false} JoinWords(bytes: seq<byte>)
    requires |bytes| % 8 == 0
    ensures Join(Words(bytes)) == bytes
  {
    if bytes != [] {
      WordsFront(bytes);
      JoinWords(bytes[8..]);
    }
  }

  /** The packing round trip on bytes: the stream comes back, padded to whole words. */
  lemma UnpackInvertsPack(bytes: seq<byte>)
    ensures Unpack(0, 0, Pack(bytes)).complete
    ensures Join(Unpack(0, 0, Pack(bytes)).words) == Padded(bytes)
  {
    UnpackInvertsPacked(Words(Padded(bytes)));
    JoinWords(Padded(bytes));
  }

  // Size.

  /** The size of everything written and pending, against the words packed so far. */
  predicate SizeOk(words: nat, run: Run, written: nat) {
    match run
    case VerbatimRun(bytes) =>
      && |bytes| / 8 <= words
      && written + |Flush(run)| <= 8 * words + (words - |bytes| / 8) / 2 + 2
    case _ => written + |Flush(run)| <= 8 * words + words / 2
  }

  lemma PackWordSize(words: nat, run: Run, written: nat, w: Word)
    requires RunOk(run) && SizeOk(words, run, written)
    ensures SizeOk(words + 1, PackWord(run, w).0, written + |PackWord(run, w).1|)
  {
    TagFacts(w);
  }

  lemma {:induction false} PackWordsSize(words: seq<Word>)
    ensures RunOk(PackWords(words).0)
    ensures SizeOk(|words|, PackWords(words).0, |PackWords(words).1|)
  {
    PackWordsUnpacks(words);
    if words != [] {
      var front := words[..|words| - 1];
      PackWordsSize(front);
      PackWordSize(|front|, PackWords(front).0, |PackWords(front).1|, words[|words| - 1]);
    }
  }

  /** W words never pack to more than `8 * W + W / 2 + 2` bytes. */
  lemma PackedSizeBound(words: seq<Word>)
    ensures |Packed(words)| <= 8 * |words| + |words| / 2 + 2
  {
    PackWordsSize(words);
  }

  /** A word of ones, and the densest word that ends a verbatim run. */
  const DENSE: Word := [1, 1, 1, 1, 1, 1, 1, 1]
  const BREAKER: Word := [0, 0, 1, 1, 1, 1, 1, 1]

  lemma {:induction false} CountZerosAppend(a: seq<byte>, b: seq<byte>)
    ensures CountZeros(a + b) == CountZeros(a) + CountZeros(b)
  {
    if a == [] {
      assert a + b == b;
    } else {
      assert (a + b)[1..] == a[1..] + b;
      CountZerosAppend(a[1..], b);
    }
  }

  lemma DenseAndBreaker()
    ensures CountZeros(DENSE) == 0 && CountZeros(BREAKER) == 2
  {
    var ones: seq<byte> := [1, 1];
    assert CountZeros(ones) == 0 by {
      assert ones[1..] == [1];
    }
    var none: seq<byte> := [0, 0];
    assert CountZeros(none) == 2 by {
      assert none[1..] == [0];
    }
    CountZerosAppend(ones, ones);
    CountZerosAppend(ones, ones + ones);
    CountZerosAppend(ones, ones + (ones + ones));
    CountZerosAppend(none, ones + (ones + ones));
    assert DENSE == ones + (ones + (ones + ones));
    assert BREAKER == none + (ones + (ones + ones));
  }

  lemma DenseThenBreaker(front: seq<Word>)
    requires PackWords(front).0 == NoRun
    ensures PackWords(front + [DENSE]).0 == VerbatimRun(DENSE)
    ensures PackWords(front + [DENSE]).1 == PackWords(front).1
    ensures PackWords(front + [DENSE] + [BREAKER]).0 == NoRun
    ensures |PackWords(front + [DENSE] + [BREAKER]).1| == |PackWords(front).1| + 17
  {
    DenseAndBreaker();
    PackSnoc(front, DENSE);
    PackSnoc(front + [DENSE], BREAKER);
    TagFacts(BREAKER);
  }

  /** Dense words and breakers in turn, `pairs` times. */
  lemma {:induction false} AlternatingSize(pairs: nat) returns (words: seq<Word>)
    ensures |words| == 2 * pairs
    ensures PackWords(words).0 == NoRun
    ensures |PackWords(words).1| == 17 * pairs
  {
    if pairs == 0 {
      words := [];
    } else {
      var front := AlternatingSize(pairs - 1);
      DenseThenBreaker(front);
      words := front + [DENSE] + [BREAKER];
    }
  }

  /** The bound is attained at every odd number of words. */
  lemma SizeBoundIsTight(pairs: nat) returns (words: seq<Word>)
    ensures |words| == 2 * pairs + 1
    ensures |Packed(words)| == 8 * |words| + |words| / 2 + 2
  {
    var front := AlternatingSize(pairs);
    DenseThenBreaker(front);
    words := front + [DENSE];
  }
}
