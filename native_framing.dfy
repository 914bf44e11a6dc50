/** The native messaging channel of the host program: each message is a
    4-byte unsigned length in the machine's byte order (little-endian here)
    followed by that many bytes of UTF-8 JSON, read from standard input and
    written to standard output. */
module NativeFraming {
  import opened Wrappers
  import opened JsValues

  newtype byte = x: int | 0 <= x < 256

  /** One more than the largest length `struct.pack('=I', n)` accepts. */
  const LengthBound: nat := 0x1_0000_0000

  /** `struct.pack('=I', n)`. */
  function PackLength(n: nat): (b: seq<byte>)
    requires n < LengthBound
    ensures |b| == 4
    ensures UnpackLength(b) == n
  {
    var q1 := n / 256;
    var q2 := q1 / 256;
    var q3 := q2 / 256;
    assert n == n % 256 + 256 * q1;
    assert q1 == q1 % 256 + 256 * q2;
    assert q2 == q2 % 256 + 256 * q3;
    assert n / 65536 == q2 && n / 16777216 == q3;
    [(n % 256) as byte, (q1 % 256) as byte, (q2 % 256) as byte, q3 as byte]
  }

  /** `struct.unpack('=I', b)[0]`. */
  function UnpackLength(b: seq<byte>): (n: nat)
    requires |b| == 4
    ensures n < LengthBound
  {
    b[0] as nat + 256 * b[1] as nat + 65536 * b[2] as nat + 16777216 * b[3] as nat
  }

  /** Every 4-byte prefix is the packing of the length it denotes. */
  lemma PackUnpack(b: seq<byte>)
    requires |b| == 4
    ensures PackLength(UnpackLength(b)) == b
  {
    var n := UnpackLength(b);
    var m2 := b[2] as nat + 256 * b[3] as nat;
    var m1 := b[1] as nat + 256 * m2;
    assert n == b[0] as nat + 256 * m1;
    DivMod256(m1, b[0] as nat);
    DivMod256(m2, b[1] as nat);
    DivMod256(b[3] as nat, b[2] as nat);
  }

  lemma DivMod256(q: nat, r: nat)
    requires r < 256
    ensures (r + 256 * q) / 256 == q && (r + 256 * q) % 256 == r
  {
  }

  /** `json.dumps(m).encode('utf-8')` and `json.loads(b)`. The JSON library is
      not part of this model; a lemma that needs it to read back what it wrote
      says so with `Faithful`. */
  datatype Codec = Codec(dumps: Json -> seq<byte>, loads: seq<byte> -> Option<Json>)

  ghost predicate Faithful(c: Codec) {
    forall j :: WellFormed(j) ==> c.loads(c.dumps(j)) == Some(j)
  }

  /** The serialised message is short enough for its length to be packed. */
  predicate Fits(c: Codec, j: Json) {
    |c.dumps(j)| < LengthBound
  }

  /** What `send_message(j)` writes. */
  function Frame(c: Codec, j: Json): (f: seq<byte>)
    requires Fits(c, j)
    ensures |f| == 4 + |c.dumps(j)|
  {
    PackLength(|c.dumps(j)|) + c.dumps(j)
  }

  /** The outcome of `get_message()`. */
  datatype Received =
    | EndOfInput            // no length bytes at all: returns None
    | Message(msg: Json)
    | TruncatedLength       // 1 to 3 length bytes: struct.unpack raises
    | InvalidJson           // json.loads raises

  function Min(a: int, b: int): int { if a < b then a else b }

  /** `get_message()` on the bytes `data` with the first `pos` already
      consumed: the outcome and the position after it. */
  function ReadFrame(c: Codec, data: seq<byte>, pos: nat): (r: (Received, nat))
    requires pos <= |data|
    ensures pos <= r.1 <= |data|
    ensures r.0 == EndOfInput <==> pos == |data|
    ensures r.0 == EndOfInput ==> r.1 == pos
    ensures r.0.Message? ==> r.1 >= pos + 4
  {
    var raw := data[pos..Min(pos + 4, |data|)];
    if |raw| == 0 then (EndOfInput, pos)
    else if |raw| < 4 then (TruncatedLength, pos + |raw|)
    else
      var end := Min(pos + 4 + UnpackLength(raw), |data|);
      match c.loads(data[pos + 4..end])
      case None => (InvalidJson, end)
      case Some(j) => (Message(j), end)
  }

  /** A frame written by `send_message` is read back by `get_message` as the
      message it carries, and reading stops right after it. */
  lemma FrameRoundTrip(c: Codec, j: Json, before: seq<byte>, after: seq<byte>)
    requires Faithful(c) && Fits(c, j) && WellFormed(j)
    ensures ReadFrame(c, before + Frame(c, j) + after, |before|)
         == (Message(j), |before| + |Frame(c, j)|)
  {
    var data := before + Frame(c, j) + after;
    var p := |before|;
    assert data[p..p + 4] == PackLength(|c.dumps(j)|);
    assert data[p + 4..p + 4 + |c.dumps(j)|] == c.dumps(j);
  }

  /** The same, for a frame found at position `pos` of the input. */
  lemma FrameAt(c: Codec, j: Json, data: seq<byte>, pos: nat)
    requires Faithful(c) && Fits(c, j) && WellFormed(j)
    requires pos + |Frame(c, j)| <= |data| && data[pos..pos + |Frame(c, j)|] == Frame(c, j)
    ensures ReadFrame(c, data, pos) == (Message(j), pos + |Frame(c, j)|)
  {
    var end := pos + |Frame(c, j)|;
    assert data == data[..pos] + Frame(c, j) + data[end..];
    FrameRoundTrip(c, j, data[..pos], data[end..]);
  }

  /** The frames of a sequence of messages, back to back. */
  function Frames(c: Codec, js: seq<Json>): seq<byte>
    requires forall i :: 0 <= i < |js| ==> Fits(c, js[i])
  {
    if js == [] then [] else Frame(c, js[0]) + Frames(c, js[1..])
  }

  /** Reads frames until the input ends; `None` when a frame is malformed. */
  function ReadAll(c: Codec, data: seq<byte>, pos: nat): Option<seq<Json>>
    requires pos <= |data|
    decreases |data| - pos
  {
    match ReadFrame(c, data, pos)
    case (EndOfInput, _) => Some([])
    case (Message(j), next) =>
      (match ReadAll(c, data, next)
       case Some(js) => Some([j] + js)
       case None => None)
    case _ => None
  }

  /** Back-to-back frames read back as exactly the messages they carry, one
      message per frame, in order. */
  lemma {:induction false} ReadAllFrames(c: Codec, before: seq<byte>, js: seq<Json>)
    requires Faithful(c)
    requires forall i :: 0 <= i < |js| ==> Fits(c, js[i]) && WellFormed(js[i])
    ensures ReadAll(c, before + Frames(c, js), |before|) == Some(js)
    decreases |js|
  {
    var data := before + Frames(c, js);
    if js == [] {
      assert data == before;
      assert ReadFrame(c, data, |before|).0 == EndOfInput;
    } else {
      var f := Frame(c, js[0]);
      var rest := Frames(c, js[1..]);
      assert data == before + f + rest;
      FrameRoundTrip(c, js[0], before, rest);
      assert ReadFrame(c, data, |before|) == (Message(js[0]), |before + f|);
      ReadAllFrames(c, before + f, js[1..]);
      assert data == (before + f) + rest;
      assert ReadAll(c, data, |before + f|) == Some(js[1..]);
      assert [js[0]] + js[1..] == js;
    }
  }

  /** Standard input as a byte stream. */
  class InStream {
    const data: seq<byte>
    var pos: nat

    ghost predicate Valid()
      reads this
    {
      pos <= |data|
    }

    constructor (data: seq<byte>)
      ensures Valid() && this.data == data && pos == 0
    {
      this.data := data;
      pos := 0;
    }

    /** `sys.stdin.buffer.read(n)`: up to `n` bytes, fewer only at the end. */
    method Read(n: nat) returns (chunk: seq<byte>)
      requires Valid()
      modifies this
      ensures Valid()
      ensures chunk == data[old(pos)..Min(old(pos) + n, |data|)]
      ensures pos == old(pos) + |chunk|
    {
      chunk := data[pos..Min(pos + n, |data|)];
      pos := pos + |chunk|;
    }
  }

  /** Standard output as a byte stream. */
  class OutStream {
    var written: seq<byte>

    constructor ()
      ensures written == []
    {
      written := [];
    }

    method Write(bytes: seq<byte>)
      modifies this
      ensures written == old(written) + bytes
    {
      written := written + bytes;
    }
  }

  /** `get_message()`. */
  method GetMessage(c: Codec, stdin: InStream) returns (r: Received)
    requires stdin.Valid()
    modifies stdin
    ensures stdin.Valid()
    ensures (r, stdin.pos) == ReadFrame(c, stdin.data, old(stdin.pos))
  {
    var rawLength := stdin.Read(4);
    if |rawLength| == 0 {
      return EndOfInput;
    }
    if |rawLength| < 4 {
      return TruncatedLength;
    }
    var messageLength := UnpackLength(rawLength);
    var message := stdin.Read(messageLength);
    var parsed := c.loads(message);
    if parsed.None? {
      return InvalidJson;
    }
    return Message(parsed.value);
  }

  /** `send_message(j)`; `sent` is false when `struct.pack` raises because the
      message is too long, and then nothing is written. */
  method SendMessage(c: Codec, stdout: OutStream, j: Json) returns (sent: bool)
    modifies stdout
    ensures sent == Fits(c, j)
    ensures sent ==> stdout.written == old(stdout.written) + Frame(c, j)
    ensures !sent ==> stdout.written == old(stdout.written)
  {
    var content := c.dumps(j);
    if |content| >= LengthBound {
      return false;
    }
    var length := PackLength(|content|);
    stdout.Write(length);
    stdout.Write(content);
    return true;
  }
}
