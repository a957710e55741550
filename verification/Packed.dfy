/** `PackedWriter` and `PackedReader`: the stateful codecs over the packed format. */
module Packed {
  import opened Bits
  import opened Bytes
  import opened PackedFormat

  datatype Result<+T> = Ok(value: T) | Err(error: StreamError)
  datatype StreamError = Empty | Closed

  lemma {:induction false} TagSnoc(w: seq<byte>, b: byte)
    ensures CountZeros(w + [b]) == CountZeros(w) + (if b == 0 then 1 else 0)
    ensures Tag(w + [b]) == Tag(w) + (if b != 0 then Pow2(|w|) else 0)
    ensures NonZeros(w + [b]) == NonZeros(w) + (if b != 0 then [b] else [])
  {
    if w == [] {
      assert ([] + [b])[1..] == [];
    } else {
      assert (w + [b])[1..] == w[1..] + [b];
      TagSnoc(w[1..], b);
      if w[0] != 0 {
        assert [w[0]] + (NonZeros(w[1..]) + (if b != 0 then [b] else [])) == NonZeros(w + [b]);
      }
    }
  }

  /** `tag |= 1 << i` for a non-zero byte `i`. */
  lemma TagStep(w: seq<byte>, b: byte)
    ensures Tag(w + [b]) == if b != 0 then Or(Tag(w), Pow2(|w|)) else Tag(w)
    ensures NonZeros(w + [b]) == if b != 0 then NonZeros(w) + [b] else NonZeros(w)
  {
    TagSnoc(w, b);
    TagFacts(w);
    OrHighBit(Tag(w), |w|);
    assert NonZeros(w) + [] == NonZeros(w);
  }

  /** A writer that has packed `words` since the stream held `before`. */
  ghost predicate WriterState(words: seq<Word>, run: Run, output: seq<byte>, before: seq<byte>) {
    run == PackWords(words).0 && output == before + PackWords(words).1
  }

  lemma PackFull(words: seq<Word>, w: Word, run: Run, output: seq<byte>, before: seq<byte>)
    requires WriterState(words, run, output, before)
    ensures WriterState(words + [w], PackMore((run, output), w).0, PackMore((run, output), w).1, before)
    ensures Join(words + [w]) == Join(words) + w
  {
    PackSnoc(words, w);
    PackMoreAfter(PackWords(words), before, w);
    JoinSnoc(words, w);
  }

  lemma {:induction false} JoinSnoc(words: seq<Word>, w: Word)
    ensures Join(words + [w]) == Join(words) + w
  {
    if words == [] {
      assert [] + [w] == [w] && [w][1..] == [];
    } else {
      assert (words + [w])[1..] == words[1..] + [w];
      JoinSnoc(words[1..], w);
      Associative(words[0], Join(words[1..]), w);
    }
  }

  /** Whole words flush to what the input packs to. */
  lemma FlushFull(words: seq<Word>, run: Run, output: seq<byte>, before: seq<byte>, input: seq<byte>)
    requires WriterState(words, run, output, before) && Join(words) == Padded(input)
    ensures output + Flush(run) == before + Pack(input)
  {
    Associative(before, PackWords(words).1, Flush(run));
    WordsJoin(words);
  }

  lemma {:induction false} WordsJoin(words: seq<Word>)
    ensures Words(Join(words)) == words
  {
    if words != [] {
      WordsJoin(words[1..]);
      var bytes := Join(words);
      assert bytes[..8] == words[0] && bytes[8..] == Join(words[1..]);
      WordsFront(bytes);
    }
  }

  lemma PaddedIs(whole: seq<byte>, partial: seq<byte>)
    requires |whole| % 8 == 0 && |partial| < 8
    ensures |partial| > 0 ==> Padded(whole + partial) == whole + (partial + Zeros(8 - |partial|))
    ensures |partial| == 0 ==> Padded(whole + partial) == whole
  {
    assert |whole + partial| % 8 == |partial|;
    Associative(whole, partial, Zeros(8 - |partial|));
  }

  lemma Associative(a: seq<byte>, b: seq<byte>, c: seq<byte>)
    ensures a + b + c == a + (b + c)
  {}

  lemma Associative4(o: seq<byte>, a: seq<byte>, b: seq<byte>, c: seq<byte>, d: seq<byte>)
    ensures o + a + b + c + d == o + (a + b + c + d)
  {}

  /** What the stream held before does not matter to packing. */
  lemma PackMoreAfter(packed: (Run, seq<byte>), before: seq<byte>, w: Word)
    ensures PackMore((packed.0, before + packed.1), w)
         == (PackMore(packed, w).0, before + PackMore(packed, w).1)
  {
    var more := PackWord(packed.0, w).1;
    assert before + packed.1 + more == before + (packed.1 + more);
  }

  lemma TakeOneMore(before: seq<byte>, buf: seq<byte>, i: nat)
    requires i < |buf|
    ensures before + buf[..i] + [buf[i]] == before + buf[..i + 1]
  {
    assert buf[..i + 1] == buf[..i] + [buf[i]];
  }

  class PackedWriter {
    // The wrapped stream.
    var output: seq<byte>
    // The next word, filled to `filled` bytes.
    const word: array<byte>
    var filled: nat
    var run: Run

    // Everything written so far, the whole words of it, and what the stream held before.
    ghost var input: seq<byte>
    ghost var words: seq<Word>
    ghost const before: seq<byte>

    ghost predicate Valid()
      reads this, word
    {
      && word.Length == 8 && filled < 8
      && input == Join(words) + word[..filled]
      && WriterState(words, run, output, before)
    }

    constructor (writes: seq<byte>)
      ensures Valid() && input == [] && output == writes && before == writes && fresh(word)
    {
      output := writes;
      before := writes;
      word := new byte[8](_ => 0);
      filled := 0;
      run := NoRun;
      input, words := [], [];
      new;
      assert word[..0] == [] && writes + [] == writes;
    }

    /** `finish`: pads the last word with zeros, packs it, and writes the run out. */
    method Finish()
      requires Valid()
      modifies this, word
      ensures output == before + Pack(old(input))
    {
      PaddedIs(Join(words), word[..filled]);
      if filled > 0 {
        PadWord();
        PackFilled();
      } else {
        assert word[..0] == [];
      }
      FlushFull(words, run, output, before, input);
      WriteRun();
    }

    /** Packs the word once all of it is there. */
    method PackFilled()
      requires word.Length == 8 && WriterState(words, run, output, before)
      modifies this`output, this`filled, this`run, this`words
      ensures filled == 0 && WriterState(words, run, output, before)
      ensures Join(words) == Join(old(words)) + word[..]
    {
      PackFull(words, word[..], run, output, before);
      words := words + [word[..]];
      PackWord();
    }

    /** `self.word[self.filled..].fill(0)`. */
    method PadWord()
      requires Valid()
      modifies word
      ensures word[..] == old(word[..filled]) + Zeros(8 - filled)
    {
      var i := filled;
      while i < 8
        invariant filled <= i <= 8
        invariant word[..i] == old(word[..filled]) + Zeros(i - filled)
      {
        ghost var was := word[..i];
        word[i] := 0;
        assert word[..i + 1] == was + [0];
        assert Zeros(i - filled) + [0] == Zeros(i + 1 - filled);
        i := i + 1;
      }
      assert word[..8] == word[..];
    }

    /** Packs the filled word, or adds it to a run. */
    method PackWord()
      requires word.Length == 8
      modifies this`output, this`filled, this`run
      ensures filled == 0
      ensures (run, output) == PackMore((old(run), old(output)), old(word[..]))
    {
      filled := 0;
      var zeros := CountZeroBytes();
      if run.ZeroRun? && zeros == 8 && run.count < 255 {
        assert PackedFormat.PackWord(run, word[..]) == (ZeroRun(run.count + 1), []);
        run := ZeroRun(run.count + 1);
        assert output == output + [];
      } else if run.VerbatimRun? && zeros < 2 && |run.bytes| < 8 * (1 + 255) {
        assert PackedFormat.PackWord(run, word[..]) == (VerbatimRun(run.bytes + word[..]), []);
        run := VerbatimRun(run.bytes + word[..]);
        assert output == output + [];
      } else {
        WriteRun();
        if zeros == 8 {
          run := ZeroRun(0);
        } else if zeros == 0 {
          run := VerbatimRun(word[..]);
        } else {
          var group := TagWord();
          assert old(output) + Flush(old(run)) + group == old(output) + (Flush(old(run)) + group);
          output := output + group;
        }
      }
    }

    method CountZeroBytes() returns (zeros: nat)
      requires word.Length == 8
      ensures zeros == CountZeros(word[..])
    {
      zeros := 0;
      var i := 0;
      while i < 8
        invariant i <= 8 && zeros == CountZeros(word[..i])
      {
        TagSnoc(word[..i], word[i]);
        assert word[..i + 1] == word[..i] + [word[i]];
        if word[i] == 0 {
          zeros := zeros + 1;
        }
        i := i + 1;
      }
      assert word[..8] == word[..];
    }

    /** The tag of the word, and its non-zero bytes. */
    method TagWord() returns (group: seq<byte>)
      requires word.Length == 8
      ensures group == Group(word[..])
    {
      var tag: nat := 0;
      var bytes := [];
      var i := 0;
      while i < 8
        invariant i <= 8 && tag == Tag(word[..i]) && bytes == NonZeros(word[..i])
      {
        TagStep(word[..i], word[i]);
        assert word[..i + 1] == word[..i] + [word[i]];
        if word[i] != 0 {
          tag := Or(tag, Pow2(i));
          bytes := bytes + [word[i]];
        }
        i := i + 1;
      }
      assert word[..8] == word[..];
      TagIsByte(word[..]);
      group := [tag] + bytes;
    }

    /** Writes the tallied run, if any. */
    method WriteRun()
      modifies this`output, this`run
      ensures run == NoRun && output == old(output) + Flush(old(run))
    {
      var tallied := run;
      run := NoRun;
      match tallied
      case NoRun =>
        assert output == output + [];
      case ZeroRun(count) =>
        output := output + [0x00, count % 256];
      case VerbatimRun(words) =>
        if |words| < 8 {
          assert output == output + [];
          return;
        }
        WriteVerbatim(words);
    }

    method WriteVerbatim(words: seq<byte>)
      requires |words| >= 8
      modifies this`output
      ensures output == old(output) + VerbatimGroup(words)
    {
      var count := (|words| / 8 - 1) % 256;
      output := output + [0xFF];
      output := output + words[..8];
      output := output + [count];
      output := output + words[8..];
      Associative4(old(output), [0xFF], words[..8], [count], words[8..]);
    }

    /** `Writes::write`: fills words byte by byte, packing each full one. */
    method Write(buf: seq<byte>) returns (written: nat)
      requires Valid()
      modifies this, word
      ensures Valid() && input == old(input) + buf && written == |buf|
    {
      var i := 0;
      while i < |buf|
        invariant i <= |buf| && Valid() && input == old(input) + buf[..i]
      {
        WriteByte(buf[i]);
        TakeOneMore(old(input), buf, i);
        i := i + 1;
      }
      assert buf[..|buf|] == buf;
      written := |buf|;
    }

    method WriteByte(b: byte)
      requires Valid()
      modifies this, word
      ensures Valid() && input == old(input) + [b]
    {
      ghost var partial := word[..filled];
      word[filled] := b;
      filled := filled + 1;
      assert word[..filled] == partial + [b];
      Associative(Join(words), partial, [b]);
      input := input + [b];
      if filled == 8 {
        assert word[..8] == word[..];
        PackFilled();
        assert word[..0] == [];
      }
    }
  }

  function Concat(chunks: seq<seq<byte>>): seq<byte> {
    if chunks == [] then [] else Concat(chunks[..|chunks| - 1]) + chunks[|chunks| - 1]
  }

  /** However a stream is split into writes, the packed bytes are those of the whole. */
  method PackChunks(chunks: seq<seq<byte>>) returns (packed: seq<byte>)
    ensures packed == Pack(Concat(chunks))
  {
    var writer := new PackedWriter([]);
    var i := 0;
    while i < |chunks|
      invariant i <= |chunks| && fresh(writer) && fresh(writer.word) && writer.Valid()
      invariant writer.before == [] && writer.input == Concat(chunks[..i])
    {
      assert chunks[..i + 1][..i] == chunks[..i];
      var _ := writer.Write(chunks[i]);
      i := i + 1;
    }
    assert chunks[..|chunks|] == chunks;
    writer.Finish();
    packed := writer.output;
    assert [] + Pack(Concat(chunks)) == Pack(Concat(chunks));
  }

  lemma NextBit(tag: nat, i: nat)
    ensures And(tag, Pow2(i)) == 0 <==> ShiftRight(tag, i) % 2 == 0
    ensures ShiftRight(tag, i + 1) == ShiftRight(tag, i) / 2
  {
    AndTestsBit(tag, i);
    ShiftRightMore(tag, i);
  }

  /** `done` words are spread from the `used` bytes, and spreading `todo` gives the rest. */
  ghost predicate Spreading(tag: nat, bytes: seq<byte>, n: nat, done: seq<byte>, used: seq<byte>, todo: seq<byte>,
                            whole: seq<byte>)
  {
    var left := ShiftRight(tag, |done|);
    bytes == used + todo && |todo| == CountOnes(left, n) && whole == done + Spread(left, n, todo)
  }

  lemma SpreadBit(tag: nat, bytes: seq<byte>, n: nat, done: seq<byte>, used: seq<byte>, todo: seq<byte>,
                  whole: seq<byte>)
      returns (b: byte, used': seq<byte>, todo': seq<byte>)
    requires n > 0 && Spreading(tag, bytes, n, done, used, todo, whole)
    ensures And(tag, Pow2(|done|)) == 0 ==> b == 0 && used' == used
    ensures And(tag, Pow2(|done|)) != 0 ==> |used| < |bytes| && b == bytes[|used|] && |used'| == |used| + 1
    ensures Spreading(tag, bytes, n - 1, done + [b], used', todo', whole)
  {
    var left := ShiftRight(tag, |done|);
    NextBit(tag, |done|);
    SpreadStep(left, n, todo);
    if left % 2 == 0 {
      b, used', todo' := 0, used, todo;
    } else {
      b, used', todo' := todo[0], used + [todo[0]], todo[1..];
      assert used' + todo' == used + todo;
    }
    Associative(done, [b], Spread(left / 2, n - 1, todo'));
  }

  class PackedReader {
    // What is left of the wrapped stream.
    var source: seq<byte>
    // The current word, read out to `read` bytes.
    const word: array<byte>
    var read: nat
    // The words remaining in a run.
    var zeros: byte
    var verbatim: byte

    predicate Valid()
      reads this
    {
      word.Length == 8 && read <= 8
    }

    /** Every byte this reader has yet to hand out. */
    ghost function Pending(): seq<byte>
      reads this, word
      requires Valid()
    {
      word[read..] + Join(Unpack(zeros, verbatim, source).words)
    }

    /** The stream is not cut off in the middle of a group. */
    ghost predicate Complete()
      reads this
    {
      Unpack(zeros, verbatim, source).complete
    }

    constructor (source: seq<byte>)
      ensures Valid() && Pending() == Join(Unpack(0, 0, source).words)
      ensures Complete() <==> Unpack(0, 0, source).complete
      ensures fresh(word)
    {
      this.source := source;
      word := new byte[8](_ => 0);
      read := 8;
      zeros, verbatim := 0, 0;
      new;
      assert word[read..] == [];
      assert Pending() == Join(Unpack(0, 0, source).words);
    }

    /** `read_exact` on the wrapped slice, which is left alone when it is too short. */
    method Take(n: nat) returns (r: Result<seq<byte>>)
      modifies this`source
      ensures r.Ok? <==> n <= old(|source|)
      ensures r.Ok? ==> r.value == old(source)[..n] && source == old(source)[n..]
      ensures r.Err? ==> source == old(source)
    {
      if n > |source| {
        return Err(Closed);
      }
      r := Ok(source[..n]);
      source := source[n..];
    }

    /** Copies `bytes` over the current word. */
    method SetWord(bytes: seq<byte>)
      requires word.Length == 8 && |bytes| == 8
      modifies word
      ensures word[..] == bytes
    {
      var i := 0;
      while i < 8
        invariant i <= 8 && word[..i] == bytes[..i]
      {
        word[i] := bytes[i];
        i := i + 1;
      }
      assert word[..] == word[..8] && bytes[..8] == bytes;
    }

    /** What `unpack_word` leaves behind, against one step of the format. */
    ghost predicate Unpacks(step: Step, r: Result<bool>)
      reads this, word
    {
      Valid() &&
      match step
      case End => r == Ok(false) && read == 8
      case Truncated => r.Err?
      case Got(w, zeros', verbatim', rest) =>
        r == Ok(true) && read == 0 && word[..] == w && zeros == zeros' && verbatim == verbatim' && source == rest
    }

    /** `unpack_word`: the next word, `false` at the end of the stream. */
    method UnpackWord() returns (r: Result<bool>)
      requires Valid() && read == 8
      modifies this, word
      ensures Unpacks(PackedFormat.UnpackWord(old(zeros), old(verbatim), old(source)), r)
      ensures r == Ok(false) ==> zeros == old(zeros) && verbatim == old(verbatim) && source == old(source)
    {
      read := 0;
      if zeros > 0 {
        zeros := zeros - 1;
        SetWord(ZERO);
        r := Ok(true);
      } else if verbatim > 0 {
        verbatim := verbatim - 1;
        var bytes := Take(8);
        if bytes.Err? {
          return Err(bytes.error);
        }
        SetWord(bytes.value);
        r := Ok(true);
      } else if source == [] {
        read := 8;
        r := Ok(false);
      } else {
        r := UnpackGroup();
      }
    }

    method UnpackGroup() returns (r: Result<bool>)
      requires Valid() && read == 0 && zeros == 0 && verbatim == 0 && source != []
      modifies this, word
      ensures Unpacks(PackedFormat.UnpackGroup(old(source)), r) && r != Ok(false)
    {
      ghost var whole := source;
      var tag := source[0];
      source := source[1..];
      if tag == 0x00 {
        SetWord(ZERO);
        var count := Take(1);
        if count.Err? {
          return Err(count.error);
        }
        zeros := count.value[0];
        assert source == whole[2..];
      } else if tag == 0xFF {
        var bytes := Take(8);
        if bytes.Err? {
          return Err(bytes.error);
        }
        SetWord(bytes.value);
        var count := Take(1);
        if count.Err? {
          return Err(count.error);
        }
        verbatim := count.value[0];
        assert bytes.value == whole[1..9] && source == whole[10..];
      } else {
        var ones := CountOnes(tag, 8);
        var bytes := Take(ones);
        if bytes.Err? {
          return Err(bytes.error);
        }
        SpreadOver(tag, bytes.value);
        assert bytes.value == whole[1..1 + ones] && source == whole[1 + ones..];
      }
      r := Ok(true);
    }

    /** Fills the word with `bytes` where the tag has a bit, and zeros elsewhere. */
    method SpreadOver(tag: byte, bytes: seq<byte>)
      requires word.Length == 8 && |bytes| == CountOnes(tag, word.Length)
      modifies word
      ensures word[..] == Spread(tag, word.Length, bytes)
    {
      var next := 0;
      var i := 0;
      ghost var done, used, todo := [], [], bytes;
      ghost var whole := Spread(tag, word.Length, bytes);
      while i < word.Length
        invariant i == |done| <= word.Length && next == |used|
        invariant Spreading(tag, bytes, word.Length - i, done, used, todo, whole)
        invariant forall k :: 0 <= k < i ==> word[k] == done[k]
      {
        ghost var b;
        b, used, todo := SpreadBit(tag, bytes, word.Length - i, done, used, todo, whole);
        if And(tag, Pow2(i)) == 0 {
          word[i] := 0;
        } else {
          word[i] := bytes[next];
          next := next + 1;
        }
        done := done + [b];
        i := i + 1;
      }
      assert word[..] == done;
    }

    /** Makes sure the word has bytes left, `false` at the end of the stream. */
    method Refill() returns (r: Result<bool>)
      requires Valid()
      modifies this, word
      ensures Valid()
      ensures r.Err? ==> !old(Complete()) && old(Pending()) == []
      ensures r == Ok(false) ==> old(Pending()) == [] && old(Complete())
      ensures r.Ok? ==> Pending() == old(Pending()) && Complete() == old(Complete())
      ensures r == Ok(true) ==> read < 8
    {
      if read < 8 {
        return Ok(true);
      }
      r := UnpackWord();
      assert old(word[read..]) == [];
      assert r == Ok(true) ==> word[0..] == word[..];
    }

    lemma SplitPending(len: nat) returns (part: seq<byte>)
      requires Valid() && read + len <= 8
      ensures |part| == len && forall k :: 0 <= k < len ==> part[k] == word[read + k]
      ensures Pending() == part + (word[read + len..] + Join(Unpack(zeros, verbatim, source).words))
    {
      part := word[read..read + len];
      assert word[read..] == part + word[read + len..];
      Associative(part, word[read + len..], Join(Unpack(zeros, verbatim, source).words));
    }

    /** Copies out as much of the word as fits in `buf[from..]`. */
    method CopyOut(buf: array<byte>, from: nat) returns (len: nat, ghost part: seq<byte>)
      requires Valid() && read < 8 && from <= buf.Length && buf != word
      modifies this`read, buf
      ensures Valid() && Complete() == old(Complete())
      ensures from + len <= buf.Length && (len == 0 ==> from == buf.Length)
      ensures |part| == len && old(Pending()) == part + Pending()
      ensures forall k :: 0 <= k < len ==> buf[from + k] == part[k]
      ensures forall k :: 0 <= k < from ==> buf[k] == old(buf[k])
    {
      len := if buf.Length - from < 8 - read then buf.Length - from else 8 - read;
      part := SplitPending(len);
      var i := 0;
      while i < len
        invariant i <= len
        invariant forall k :: 0 <= k < i ==> buf[from + k] == part[k]
        invariant forall k :: 0 <= k < from ==> buf[k] == old(buf[k])
        modifies buf
      {
        buf[from + i] := word[read + i];
        assert part[i] == word[read + i];
        i := i + 1;
      }
      read := read + len;
    }

    /** `Reads::read` into `buf[from..]`. On success it hands out a prefix of what is
        pending, and nothing only at the end or when nothing was asked for. */
    method Read(buf: array<byte>, from: nat) returns (r: Result<nat>, ghost part: seq<byte>)
      requires Valid() && from <= buf.Length && buf != word
      modifies this, word, buf
      ensures Valid()
      ensures r.Err? ==> !old(Complete()) && old(Pending()) == []
      ensures r.Ok? ==>
                && Complete() == old(Complete())
                && from + r.value <= buf.Length
                && |part| == r.value && old(Pending()) == part + Pending()
                && (r.value == 0 ==> from == buf.Length || (old(Pending()) == [] && old(Complete())))
      ensures r.Ok? ==> forall k :: 0 <= k < r.value ==> buf[from + k] == part[k]
      ensures r.Ok? ==> forall k :: 0 <= k < from ==> buf[k] == old(buf[k])
    {
      part := [];
      var more := Refill();
      if more.Err? {
        return Err(more.error), part;
      }
      if !more.value {
        return Ok(0), part;
      }
      var len;
      len, part := CopyOut(buf, from);
      r := Ok(len);
    }

    /** `Reads::read_exact`: it fails exactly when too few words are left before the end of the
        stream or the point where it is cut off; in the first case with `Empty`. */
    method ReadExact(buf: array<byte>) returns (r: Result<()>)
      requires Valid() && buf != word
      modifies this, word, buf
      ensures Valid()
      ensures r.Ok? ==> Complete() == old(Complete()) && old(Pending()) == buf[..] + Pending()
      ensures r.Ok? <==> old(|Pending()|) >= buf.Length
      ensures old(Complete()) && old(|Pending()|) < buf.Length ==> r == Err(Empty)
    {
      ghost var pending := Pending();
      ghost var done := [];
      var n := 0;
      while n < buf.Length
        invariant Valid() && n == |done| <= buf.Length
        invariant pending == done + Pending()
        invariant forall k :: 0 <= k < n ==> buf[k] == done[k]
        invariant Complete() == old(Complete())
      {
        var got, part := Read(buf, n);
        if got.Err? {
          return Err(got.error);
        }
        if got.value == 0 {
          return Err(Empty);
        }
        Associative(done, part, Pending());
        done := done + part;
        n := n + got.value;
      }
      assert buf[..] == done;
      r := Ok(());
    }
  }

  /** The whole round trip: bytes packed through any writes come back through reads of any
      non-zero sizes, padded with zeros to a whole number of words. `got` is what the
      reads returned, and if they did not stop early it is everything. */
  method RoundTrip(chunks: seq<seq<byte>>, sizes: seq<nat>) returns (got: seq<byte>, ended: bool)
    requires forall k :: 0 <= k < |sizes| ==> sizes[k] > 0
    ensures got <= Padded(Concat(chunks))
    ensures ended ==> got == Padded(Concat(chunks))
    ensures |sizes| > |Padded(Concat(chunks))| ==> ended
  {
    var reader := PackThenRead(chunks);
    got, ended := Drain(reader, sizes);
  }

  method PackThenRead(chunks: seq<seq<byte>>) returns (reader: PackedReader)
    ensures fresh(reader) && fresh(reader.word) && reader.Valid() && reader.Complete()
    ensures reader.Pending() == Padded(Concat(chunks))
  {
    var packed := PackChunks(chunks);
    UnpackInvertsPack(Concat(chunks));
    reader := new PackedReader(packed);
  }

  /** Reads of the given sizes until one of them returns nothing. */
  method Drain(reader: PackedReader, sizes: seq<nat>) returns (got: seq<byte>, ended: bool)
    requires reader.Valid() && reader.Complete()
    requires forall k :: 0 <= k < |sizes| ==> sizes[k] > 0
    modifies reader, reader.word
    ensures reader.Valid() && reader.Complete()
    ensures old(reader.Pending()) == got + reader.Pending()
    ensures ended ==> got == old(reader.Pending())
    ensures |sizes| > |old(reader.Pending())| ==> ended
  {
    ghost var whole := reader.Pending();
    got, ended := [], false;
    var i := 0;
    while i < |sizes| && !ended
      invariant i <= |sizes| && reader.Valid() && reader.Complete()
      invariant whole == got + reader.Pending()
      invariant ended ==> got == whole
      invariant !ended ==> i <= |got|
    {
      var part := ReadSome(reader, sizes[i]);
      Associative(got, part, reader.Pending());
      got := got + part;
      ended := part == [];
      i := i + 1;
    }
  }

  /** One read of at most `size` bytes from a stream that is not cut off. */
  method ReadSome(reader: PackedReader, size: nat) returns (part: seq<byte>)
    requires reader.Valid() && reader.Complete()
    modifies reader, reader.word
    ensures reader.Valid() && reader.Complete()
    ensures old(reader.Pending()) == part + reader.Pending() && |part| <= size
    ensures part == [] ==> size == 0 || old(reader.Pending()) == []
  {
    var buf := new byte[size](_ => 0);
    var n, read := reader.Read(buf, 0);
    part := buf[..n.value];
    assert part == read;
  }
}
