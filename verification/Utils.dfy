/**
 Byte vectors, exceptions, and the little-endian conversions of utils.h.
 */
module Utils {
  import opened Bits

  const WORD_SIZE := 4

  datatype Option<+T> = None | Some(value: T)

  /** The exceptions the modelled code can throw. */
  datatype Exception = LogicError | InvalidArgument

  /**
   What a call that may throw ends with. A caller that goes on to use `.value` has to
   prove that the call did not throw.
   */
  datatype Result<+T> = Returned(value: T) | Thrown(exception: Exception)

  function Zeros(n: nat): (s: seq<uint8>)
    ensures |s| == n && forall i :: 0 <= i < n ==> s[i] == 0
  {
    seq(n, _ => 0)
  }

  /** Contents of a vector after resize(n): cut, or filled up with zeros. */
  function Resized(s: seq<uint8>, n: nat): (r: seq<uint8>)
    ensures |r| == n
    ensures forall i :: 0 <= i < n ==> r[i] == if i < |s| then s[i] else 0
  {
    if n <= |s| then s[..n] else s + Zeros(n - |s|)
  }

  /** Contents of a buffer after an outside party stored data at its start, never past its end. */
  function Overwritten(s: seq<uint8>, data: seq<uint8>): (r: seq<uint8>)
    ensures |r| == |s|
    ensures forall i :: 0 <= i < |s| ==> r[i] == if i < |data| then data[i] else s[i]
  {
    if |data| <= |s| then data + s[|data|..] else data[..|s|]
  }

  /** std::vector<uint8_t>, passed by reference. */
  class ByteVector {
    var bytes: seq<uint8>

    constructor (initial: seq<uint8>)
      ensures bytes == initial
    {
      bytes := initial;
    }

    method Resize(n: nat)
      modifies this
      ensures bytes == Resized(old(bytes), n)
    {
      bytes := Resized(bytes, n);
    }

    method Put(i: nat, b: uint8)
      requires i < |bytes|
      modifies this
      ensures bytes == old(bytes)[i := b]
    {
      bytes := bytes[i := b];
    }

    method Append(tail: seq<uint8>)
      modifies this
      ensures bytes == old(bytes) + tail
    {
      bytes := bytes + tail;
    }
  }

  /** The unsigned little-endian value of the four bytes at an offset. */
  function Word(b: seq<uint8>, offset: nat): uint32
    requires offset + WORD_SIZE <= |b|
  {
    var b0: int, b1: int, b2: int, b3: int := b[offset], b[offset + 1], b[offset + 2], b[offset + 3];
    b0 + 0x100 * b1 + 0x1_0000 * b2 + 0x100_0000 * b3
  }

  /** The four bytes of a word, least significant first. */
  function Bytes(w: uint32): (b: seq<uint8>)
    ensures |b| == WORD_SIZE
  {
    [w % 0x100, w / 0x100 % 0x100, w / 0x1_0000 % 0x100, w / 0x100_0000]
  }

  lemma WordOfBytes(w: uint32)
    ensures Word(Bytes(w), 0) == w
  {
    var q1, q2 := w / 0x100, w / 0x1_0000;
    assert q1 / 0x100 == q2 && q2 / 0x100 == w / 0x100_0000;
    assert w == 0x100 * q1 + w % 0x100 && q1 == 0x100 * q2 + q1 % 0x100 && q2 == 0x100 * (q2 / 0x100) + q2 % 0x100;
  }

  lemma BytesOfWord(b: seq<uint8>, offset: nat)
    requires offset + WORD_SIZE <= |b|
    ensures Bytes(Word(b, offset)) == b[offset..offset + WORD_SIZE]
  {
    var b0: int, b1: int, b2: int, b3: int := b[offset], b[offset + 1], b[offset + 2], b[offset + 3];
    var w := Word(b, offset);
    Digits(b0, b1, b2, b3);
  }

  lemma Digits(b0: uint8, b1: uint8, b2: uint8, b3: uint8)
    ensures var w := b0 as int + 0x100 * b1 as int + 0x1_0000 * b2 as int + 0x100_0000 * b3 as int;
            w % 0x100 == b0 && w / 0x100 % 0x100 == b1 && w / 0x1_0000 % 0x100 == b2 && w / 0x100_0000 == b3
  {
    var high2 := b2 as int + 0x100 * b3 as int;
    var high1 := b1 as int + 0x100 * high2;
    var w := b0 as int + 0x100 * high1;
    ModUnique(w, 0x100, high1, b0);
    ModUnique(high1, 0x100, high2, b1);
    ModUnique(high2, 0x100, b3, b2);
    ModUnique(w, 0x1_0000, high2, b0 as int + 0x100 * b1 as int);
    ModUnique(w, 0x100_0000, b3, b0 as int + 0x100 * b1 as int + 0x1_0000 * b2 as int);
  }

  /** Which byte is which: the byte at the offset is the least significant one. */
  predicate LittleEndianAt(b: seq<uint8>, offset: nat, w: uint32)
    requires offset + 4 <= |b|
  {
    && b[offset] == w % 0x100
    && b[offset + 1] == w / 0x100 % 0x100
    && b[offset + 2] == w / 0x1_0000 % 0x100
    && b[offset + 3] == w / 0x100_0000
  }

  /** A word is decoded from four bytes exactly if they are its base-256 digits in that order. */
  lemma WordByBytes(b: seq<uint8>, offset: nat, w: uint32)
    requires offset + 4 <= |b|
    ensures Word(b, offset) == w <==> LittleEndianAt(b, offset, w)
  {
    Digits(b[offset], b[offset + 1], b[offset + 2], b[offset + 3]);
    WordOfBytes(w);
  }

  /** A word is read back the same wherever the bytes around it came from. */
  lemma WordInContext(front: seq<uint8>, w: uint32, back: seq<uint8>)
    ensures Word(front + Bytes(w) + back, |front|) == w
  {
    var b := front + Bytes(w) + back;
    assert b[|front|..|front| + WORD_SIZE] == Bytes(w);
    WordOfBytes(w);
  }

  lemma WordInSlice(b: seq<uint8>, from: nat, to: nat, offset: nat)
    requires from + offset + WORD_SIZE <= to <= |b|
    ensures Word(b[from..to], offset) == Word(b, from + offset)
  {
  }

  /** A buffer with the bytes of a word stored at an offset. */
  function Stored(b: seq<uint8>, offset: nat, w: uint32): (r: seq<uint8>)
    requires offset + WORD_SIZE <= |b|
    ensures |r| == |b|
  {
    b[..offset] + Bytes(w) + b[offset + WORD_SIZE..]
  }

  /** A store is read back exactly, and changes none of the other bytes. */
  lemma StoreThenLoad(b: seq<uint8>, offset: nat, w: uint32)
    requires offset + WORD_SIZE <= |b|
    ensures Word(Stored(b, offset, w), offset) == w
    ensures forall i :: 0 <= i < |b| && !(offset <= i < offset + WORD_SIZE) ==> Stored(b, offset, w)[i] == b[i]
    ensures Stored(b, offset, Word(b, offset)) == b
  {
    WordInContext(b[..offset], w, b[offset + WORD_SIZE..]);
    BytesOfWord(b, offset);
  }

  /**
   The top byte shifted left as a signed 32-bit value goes negative from 0x80 on. The
   sum of all four shifted bytes still fits int32, and its conversion to uint32 is the
   unsigned value of the bytes.
   */
  lemma SignedSum(b0: uint8, b1: uint8, b2: uint8, b3: uint8)
    ensures var low := b0 as int + 0x100 * b1 as int + 0x1_0000 * b2 as int;
            var top := 0x100_0000 * b3 as int;
            && -0x8000_0000 <= AsInt32(top) && AsInt32(top) + low < 0x8000_0000
            && (AsInt32(top) < 0 <==> b3 >= 0x80)
            && AsUint32(AsInt32(top) + low) == top + low
            && AsInt32(0x1_0000 * b2 as int) == 0x1_0000 * b2 as int && AsInt32(0x100 * b1 as int) == 0x100 * b1 as int
  {
    var low := b0 as int + 0x100 * b1 as int + 0x1_0000 * b2 as int;
    var top := 0x100_0000 * b3 as int;
    if b3 >= 0x80 {
      assert AsInt32(top) == top - UINT32_RANGE;
      ModUnique(top - UINT32_RANGE + low, UINT32_RANGE, -1, top + low);
    } else {
      assert AsInt32(top) == top;
      ModUnique(top + low, UINT32_RANGE, 0, top + low);
    }
  }

  /**
   decodeFromLittleEndianBuffer. Each shifted byte and each partial sum is stored in
   an int32: the declared type is checked at every step, so no sum overflows.
   */
  method DecodeFromLittleEndianBuffer(buffer: seq<uint8>, offset: nat) returns (r: Result<uint32>)
    ensures r == if offset + WORD_SIZE <= |buffer| then Returned(Word(buffer, offset)) else Thrown(InvalidArgument)
    ensures r.Returned? ==> offset + 4 <= |buffer| && LittleEndianAt(buffer, offset, r.value)
  {
    hide AsInt32, AsUint32, LittleEndianAt;
    if |buffer| < offset + WORD_SIZE {
      return Thrown(InvalidArgument);
    }
    SignedSum(buffer[offset], buffer[1 + offset], buffer[2 + offset], buffer[3 + offset]);
    var sum: int32 := AsInt32(0x100_0000 * buffer[3 + offset] as int);
    sum := sum + AsInt32(0x1_0000 * buffer[2 + offset] as int);
    sum := sum + AsInt32(0x100 * buffer[1 + offset] as int);
    sum := sum + buffer[0 + offset];
    WordByBytes(buffer, offset, AsUint32(sum));
    return Returned(AsUint32(sum));
  }

  /** encodeToLittleEndianBuffer: four single-byte writes, the highest first. */
  method EncodeToLittleEndianBuffer(value: uint32, buffer: ByteVector, offset: nat) returns (r: Result<()>)
    modifies buffer
    ensures offset + WORD_SIZE <= |old(buffer.bytes)| ==>
              r == Returned(()) && buffer.bytes == Stored(old(buffer.bytes), offset, value)
    ensures r.Returned? ==> offset + 4 <= |buffer.bytes| && LittleEndianAt(buffer.bytes, offset, value)
    ensures offset + WORD_SIZE > |old(buffer.bytes)| ==>
              r == Thrown(InvalidArgument) && buffer.bytes == old(buffer.bytes)
  {
    if |buffer.bytes| < offset + WORD_SIZE {
      return Thrown(InvalidArgument);
    }
    buffer.Put(3 + offset, value / 0x100_0000 % 0x100);
    buffer.Put(2 + offset, value / 0x1_0000 % 0x100);
    buffer.Put(1 + offset, value / 0x100 % 0x100);
    buffer.Put(0 + offset, value % 0x100);
    assert buffer.bytes == Stored(old(buffer.bytes), offset, value);
    return Returned(());
  }

  /** The words of a byte buffer, four bytes each. */
  function WordsOf(b: seq<uint8>): (ws: seq<uint32>)
    ensures |ws| == |b| / WORD_SIZE
  {
    if |b| < WORD_SIZE then []
    else
      var last := |b| - |b| % WORD_SIZE - WORD_SIZE;
      WordsOf(b[..last]) + [Word(b, last)]
  }

  function BytesOf(ws: seq<uint32>): (b: seq<uint8>)
    ensures |b| == WORD_SIZE * |ws|
  {
    if ws == [] then [] else BytesOf(ws[..|ws| - 1]) + Bytes(ws[|ws| - 1])
  }

  /** The k-th word comes from the k-th four bytes. */
  lemma {:induction false} WordAt(b: seq<uint8>, k: nat)
    requires k < |b| / 4
    ensures WordsOf(b)[k] == Word(b, 4 * k)
  {
    hide Word;
    var last := |b| - |b| % WORD_SIZE - WORD_SIZE;
    if k < |b| / 4 - 1 {
      WordAt(b[..last], k);
      WordInSlice(b, 0, last, 4 * k);
      assert b[0..last] == b[..last];
    }
  }

  /** The k-th four bytes are those of the k-th word. */
  lemma {:induction false} BytesAt(ws: seq<uint32>, k: nat)
    requires k < |ws|
    ensures BytesOf(ws)[4 * k..4 * k + 4] == Bytes(ws[k])
    ensures LittleEndianAt(BytesOf(ws), 4 * k, ws[k])
  {
    hide Bytes, LittleEndianAt;
    var front := ws[..|ws| - 1];
    assert BytesOf(ws) == BytesOf(front) + Bytes(ws[|ws| - 1]);
    if k < |ws| - 1 {
      BytesAt(front, k);
    }
    BytesInPlace(BytesOf(ws), 4 * k, ws[k]);
  }

  lemma BytesInPlace(b: seq<uint8>, offset: nat, w: uint32)
    requires offset + 4 <= |b| && b[offset..offset + 4] == Bytes(w)
    ensures LittleEndianAt(b, offset, w)
  {
    assert b[offset] == Bytes(w)[0] && b[offset + 1] == Bytes(w)[1];
    assert b[offset + 2] == Bytes(w)[2] && b[offset + 3] == Bytes(w)[3];
  }

  /** Bytes to words to bytes is the identity on every buffer made of whole words. */
  lemma {:induction false} WordsThenBytes(b: seq<uint8>)
    requires |b| % WORD_SIZE == 0
    ensures BytesOf(WordsOf(b)) == b
  {
    hide Word, Bytes;
    if b != [] {
      var last := |b| - WORD_SIZE;
      WordsThenBytes(b[..last]);
      BytesOfWord(b, last);
      var ws := WordsOf(b);
      assert ws[..|ws| - 1] == WordsOf(b[..last]);
    }
  }

  /** Words to bytes to words is the identity on every word buffer. */
  lemma {:induction false} BytesThenWords(ws: seq<uint32>)
    ensures WordsOf(BytesOf(ws)) == ws
  {
    hide Word, Bytes;
    if ws != [] {
      var front, w := ws[..|ws| - 1], ws[|ws| - 1];
      var b := BytesOf(ws);
      BytesThenWords(front);
      assert b[..|b| - WORD_SIZE] == BytesOf(front);
      assert b == BytesOf(front) + Bytes(w) + [];
      WordInContext(BytesOf(front), w, []);
    }
  }

  lemma NoWords(b: seq<uint8>)
    ensures WordsOf(b[..0]) == []
  {
  }

  lemma WordsOfLonger(b: seq<uint8>, i: nat)
    requires i % WORD_SIZE == 0 && i + WORD_SIZE <= |b|
    ensures WordsOf(b[..i + WORD_SIZE]) == WordsOf(b[..i]) + [Word(b, i)]
  {
    hide Word;
    assert b[..i + WORD_SIZE][..i] == b[..i];
    assert b[..i + WORD_SIZE] == b[0..i + WORD_SIZE];
    WordInSlice(b, 0, i + WORD_SIZE, i);
  }

  method WordBufferFromByteBuffer(input: seq<uint8>) returns (r: Result<seq<uint32>>)
    ensures r == if |input| % WORD_SIZE == 0 then Returned(WordsOf(input)) else Thrown(InvalidArgument)
  {
    hide Word, WordsOf, LittleEndianAt;
    if |input| % WORD_SIZE != 0 {
      return Thrown(InvalidArgument);
    }
    var output: seq<uint32> := [];
    var i := 0;
    NoWords(input);
    while i < |input|
      invariant 0 <= i <= |input| && i % WORD_SIZE == 0
      invariant output == WordsOf(input[..i])
    {
      var word := DecodeFromLittleEndianBuffer(input, i);
      WordsOfLonger(input, i);
      output := output + [word.value];
      i := i + WORD_SIZE;
    }
    assert input[..i] == input;
    return Returned(output);
  }

  method ByteBufferFromWordBuffer(input: seq<uint32>, output: ByteVector) returns (r: Result<()>)
    modifies output
    ensures r == Returned(()) && output.bytes == BytesOf(input)
  {
    output.Resize(|input| * WORD_SIZE);
    var i := 0;
    while i < |input|
      invariant 0 <= i <= |input| && |output.bytes| == |input| * WORD_SIZE
      invariant output.bytes[..i * WORD_SIZE] == BytesOf(input[..i])
    {
      ghost var before := output.bytes;
      var encoded := EncodeToLittleEndianBuffer(input[i], output, i * WORD_SIZE);
      assert encoded.Returned?;
      assert input[..i + 1][..i] == input[..i];
      assert output.bytes[..(i + 1) * WORD_SIZE] == before[..i * WORD_SIZE] + Bytes(input[i]);
      i := i + 1;
    }
    assert input[..i] == input;
    assert output.bytes[..i * WORD_SIZE] == output.bytes;
    return Returned(());
  }

  /** byteBufferFromWordPointer: the caller vouches that the pointer spans inputSize words. */
  method ByteBufferFromWordPointer(input: array<uint32>, inputSize: nat) returns (r: Result<seq<uint8>>)
    requires inputSize <= input.Length
    ensures r == Returned(BytesOf(input[..inputSize]))
  {
    var outVector := new ByteVector([]);
    var _ := ByteBufferFromWordBuffer(input[..inputSize], outVector);
    return Returned(outVector.bytes);
  }

  /** writeToWordPointerFromByteBuffer: outputSize is the capacity on entry, the words written on exit. */
  method WriteToWordPointerFromByteBuffer(input: seq<uint8>, output: array<uint32>, outputSize: nat)
    returns (r: Result<()>, newSize: nat)
    requires outputSize <= output.Length
    modifies output
    ensures r == if |input| % WORD_SIZE == 0
              && |input| / WORD_SIZE <= outputSize then Returned(()) else Thrown(InvalidArgument)
    ensures r.Returned? ==> newSize == |input| / WORD_SIZE && output[..newSize] == WordsOf(input)
    ensures r.Returned? ==> forall i :: newSize <= i < output.Length ==> output[i] == old(output[i])
    ensures r.Thrown? ==> newSize == outputSize && output[..] == old(output[..])
  {
    newSize := outputSize;
    var words := WordBufferFromByteBuffer(input);
    if words.Thrown? {
      return Thrown(words.exception), newSize;
    }
    var wordBuffer := words.value;
    if outputSize < |wordBuffer| {
      return Thrown(InvalidArgument), newSize;
    }
    var i := 0;
    while i < |wordBuffer|
      invariant 0 <= i <= |wordBuffer|
      invariant output[..i] == wordBuffer[..i]
      invariant forall j :: i <= j < output.Length ==> output[j] == old(output[j])
    {
      output[i] := wordBuffer[i];
      i := i + 1;
    }
    return Returned(()), |wordBuffer|;
  }

  /**
   Storing bytes through the pointer and reading the returned number of words back
   restores the bytes, and leaves every word past that size alone.
   */
  method PointerRoundTrip(input: seq<uint8>, output: array<uint32>, capacity: nat) returns (back: seq<uint8>)
    requires capacity <= output.Length
    requires |input| % WORD_SIZE == 0 && |input| / WORD_SIZE <= capacity
    modifies output
    ensures back == input
    ensures forall i :: |input| / WORD_SIZE <= i < output.Length ==> output[i] == old(output[i])
  {
    var _, size := WriteToWordPointerFromByteBuffer(input, output, capacity);
    var restored := ByteBufferFromWordPointer(output, size);
    WordsThenBytes(input);
    back := restored.value;
  }
}
