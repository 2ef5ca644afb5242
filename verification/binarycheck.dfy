/**
 Binary/text classification of a file (binarycheck.py).

 The heuristic looks at no more than the first `ChunkSize` bytes of the file:
 an empty chunk is text, a chunk holding a NUL byte is binary, and otherwise
 the chunk is binary exactly when its control bytes outnumber the rest.
 The external `file` probe is not modelled; its verdict is a parameter.
 */
module BinaryCheck {

  /** A byte value, as produced by reading a file opened in binary mode. */
  type Byte = b: int | 0 <= b < 256

  /** Number of bytes the heuristic reads from the start of the file. */
  const ChunkSize: nat := 1024

  /** A character code is a control code when it is below 33 or above 255. */
  function IsControlChar(code: nat): (r: bool)
    ensures code < 256 ==> (r <==> code < 33)
  {
    code < 33 || code > 255
  }

  /** Every whitespace byte (space, tab, line feed, carriage return) counts
      as control; the first printable byte does not. */
  lemma WhitespaceIsControl()
    ensures IsControlChar(' ' as int) && IsControlChar('\t' as int)
    ensures IsControlChar('\n' as int) && IsControlChar('\r' as int)
    ensures !IsControlChar('!' as int)
  {
  }

  /** Number of control bytes in `data`, counted from the front as the loop does. */
  function ControlCount(data: seq<Byte>): (n: nat)
    ensures n <= |data|
  {
    if data == [] then 0
    else ControlCount(data[..|data| - 1]) + (if IsControlChar(data[|data| - 1]) then 1 else 0)
  }

  /** The counting loop of `control_char_count`. */
  method ControlCharCount(data: seq<Byte>) returns (n: nat)
    ensures n == ControlCount(data)
    ensures n <= |data|
  {
    n := 0;
    var i := 0;
    while i < |data|
      invariant 0 <= i <= |data|
      invariant n == ControlCount(data[..i])
    {
      assert data[..i + 1][..i] == data[..i];
      if IsControlChar(data[i]) {
        n := n + 1;
      }
      i := i + 1;
    }
    assert data[..i] == data;
  }

  lemma ControlCountEmpty()
    ensures ControlCount([]) == 0
  {
  }

  /** Counting is additive over concatenation. */
  lemma {:induction false} ControlCountAppend(a: seq<Byte>, b: seq<Byte>)
    ensures ControlCount(a + b) == ControlCount(a) + ControlCount(b)
    decreases |b|
  {
    if b == [] {
      assert a + b == a;
    } else {
      var b' := b[..|b| - 1];
      assert (a + b)[..|a + b| - 1] == a + b';
      ControlCountAppend(a, b');
    }
  }

  /** No control byte is counted exactly when every byte is at least 33. */
  lemma {:induction false} ControlCountZero(data: seq<Byte>)
    ensures ControlCount(data) == 0 <==> forall i | 0 <= i < |data| :: data[i] >= 33
  {
    if data != [] {
      var d' := data[..|data| - 1];
      ControlCountZero(d');
      assert forall i | 0 <= i < |d'| :: d'[i] == data[i];
    }
  }

  /** Every byte is counted exactly when every byte is below 33. */
  lemma {:induction false} ControlCountFull(data: seq<Byte>)
    ensures ControlCount(data) == |data| <==> forall i | 0 <= i < |data| :: data[i] < 33
  {
    if data != [] {
      var d' := data[..|data| - 1];
      ControlCountFull(d');
      assert forall i | 0 <= i < |d'| :: d'[i] == data[i];
    }
  }

  /** What `fh.read(ChunkSize)` returns: the file's first `ChunkSize` bytes,
      or the whole file when it is shorter. */
  function Chunk(raw: seq<Byte>): (c: seq<Byte>)
    ensures |c| <= ChunkSize
    ensures |raw| <= ChunkSize ==> c == raw
    ensures |raw| > ChunkSize ==> |c| == ChunkSize
    ensures c == raw[..|c|]
  {
    if |raw| <= ChunkSize then raw else raw[..ChunkSize]
  }

  /** The decision of `is_binary_file_h` on the chunk it has read. */
  predicate IsBinaryChunk(chunk: seq<Byte>)
  {
    if chunk == [] then false
    else if 0 in chunk then true
    else
      var ncontrol := ControlCount(chunk);
      var ntext := |chunk| - ncontrol;
      ncontrol > ntext
  }

  /** `is_binary_file_h`, given the bytes of the file. */
  predicate IsBinaryFileH(raw: seq<Byte>)
  {
    IsBinaryChunk(Chunk(raw))
  }

  /** `is_binary_file`: the probe's verdict counts only while the probe is in
      use, and the heuristic can always turn the answer to binary. */
  predicate IsBinaryFile(useFileCommand: bool, probeSaysBinary: bool, raw: seq<Byte>)
  {
    (useFileCommand && probeSaysBinary) || IsBinaryFileH(raw)
  }

  /** An empty file is text. */
  lemma EmptyIsText()
    ensures !IsBinaryFileH([])
  {
  }

  /** A NUL byte within the inspected prefix makes the file binary. */
  lemma NulInPrefixIsBinary(raw: seq<Byte>, i: nat)
    requires i < |raw| && i < ChunkSize && raw[i] == 0
    ensures IsBinaryFileH(raw)
  {
    var c := Chunk(raw);
    assert c[i] == 0;
  }

  /** Without NUL bytes, a non-empty chunk is binary exactly when more than
      half of its bytes are control bytes. */
  lemma ThresholdRule(raw: seq<Byte>)
    requires Chunk(raw) != [] && 0 !in Chunk(raw)
    ensures IsBinaryFileH(raw) <==> 2 * ControlCount(Chunk(raw)) > |Chunk(raw)|
  {
  }

  /** A prefix made only of printable bytes (33 and above) is text. */
  lemma PrintableIsText(raw: seq<Byte>)
    requires forall i | 0 <= i < |Chunk(raw)| :: Chunk(raw)[i] >= 33
    ensures !IsBinaryFileH(raw)
  {
    var c := Chunk(raw);
    ControlCountZero(c);
    if c != [] {
      assert 0 !in c by {
        forall i | 0 <= i < |c| ensures c[i] != 0 { }
      }
    }
  }

  /** A non-empty prefix made only of bytes below 33 is binary. */
  lemma ControlOnlyIsBinary(raw: seq<Byte>)
    requires raw != []
    requires forall i | 0 <= i < |Chunk(raw)| :: Chunk(raw)[i] < 33
    ensures IsBinaryFileH(raw)
  {
    ControlCountFull(Chunk(raw));
  }

  /** Bytes past the inspected prefix never change the classification. */
  lemma TrailingBytesIgnored(raw: seq<Byte>, tail: seq<Byte>)
    requires |raw| >= ChunkSize
    ensures IsBinaryFileH(raw + tail) <==> IsBinaryFileH(raw)
  {
    assert (raw + tail)[..ChunkSize] == raw[..ChunkSize];
  }

  /** Two files that agree on their first `ChunkSize` bytes (or entirely,
      when shorter) are classified alike. */
  lemma SamePrefixSameVerdict(a: seq<Byte>, b: seq<Byte>)
    requires |a| >= ChunkSize ==> |b| >= ChunkSize && a[..ChunkSize] == b[..ChunkSize]
    requires |a| < ChunkSize ==> a == b
    ensures IsBinaryFileH(a) <==> IsBinaryFileH(b)
  {
  }

  /** With the probe switched off the answer is the heuristic's. */
  lemma ProbeOffIsHeuristic(probeSaysBinary: bool, raw: seq<Byte>)
    ensures IsBinaryFile(false, probeSaysBinary, raw) <==> IsBinaryFileH(raw)
  {
  }

  /** A file is reported as text only when neither opinion says binary; a
      "text" answer from the probe never overrides the heuristic. */
  lemma TextNeedsBothOpinions(useFileCommand: bool, probeSaysBinary: bool, raw: seq<Byte>)
    ensures !IsBinaryFile(useFileCommand, probeSaysBinary, raw)
      <==> !(useFileCommand && probeSaysBinary) && !IsBinaryFileH(raw)
    ensures IsBinaryFileH(raw) ==> IsBinaryFile(useFileCommand, probeSaysBinary, raw)
  {
  }

  /** One more line feed can turn the verdict: [LF, LF, 'a', 'b'] is text,
      [LF, LF, 'a', 'b', LF] is binary. */
  lemma LineFeedTipsVerdict()
    ensures !IsBinaryFileH([10, 10, 97, 98])
    ensures IsBinaryFileH([10, 10, 97, 98, 10])
  {
    var a1: seq<Byte> := [10];
    var a2: seq<Byte> := [10, 10];
    var a3: seq<Byte> := [10, 10, 97];
    var a: seq<Byte> := [10, 10, 97, 98];
    var b: seq<Byte> := [10, 10, 97, 98, 10];
    assert a1[..0] == [] && ControlCount(a1) == 1;
    assert a2[..1] == a1 && ControlCount(a2) == 2;
    assert a3[..2] == a2 && ControlCount(a3) == 2;
    assert a[..3] == a3 && ControlCount(a) == 2;
    assert b[..4] == a && ControlCount(b) == 3;
    assert 0 !in a && 0 !in b;
  }
}
