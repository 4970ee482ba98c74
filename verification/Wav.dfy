// The PCM16 WAV writer: a 44-byte header stub, little-endian samples appended at the file
// cursor, and the header written again with the final sizes on close.

module Wav {

  import opened Sequences

  type Byte = b: int | 0 <= b < 256
  type Sample = s: int | -32768 <= s < 32768

  const TWO32 := 0x1_0000_0000
  const SAMPLE_RATE := 16000
  const CHANNELS := 1
  const BITS := 16

  // ----- little-endian numbers

  /** The `width` low bytes of n, least significant first. */
  function Le(n: nat, width: nat): (r: seq<Byte>)
    ensures |r| == width
  {
    if width == 0 then [] else [n % 256] + Le(n / 256, width - 1)
  }

  function FromLe(b: seq<Byte>): nat {
    if b == [] then 0 else b[0] as int + 256 * FromLe(b[1..])
  }

  function Power256(k: nat): nat { if k == 0 then 1 else 256 * Power256(k - 1) }

  lemma {:induction false} LeRoundTrip(n: nat, width: nat)
    requires n < Power256(width)
    ensures FromLe(Le(n, width)) == n
    decreases width
  {
    if width > 0 {
      LeRoundTrip(n / 256, width - 1);
      assert Le(n, width)[1..] == Le(n / 256, width - 1);
    }
  }

  lemma Widths()
    ensures Power256(2) == 65536 && Power256(4) == TWO32
  {
    assert Power256(3) == 256 * Power256(2);
  }

  // ----- samples

  /** Go's `uint16(s)`. */
  function Unsigned(s: Sample): nat { if s < 0 then s + 65536 else s }

  function Encode(samples: seq<Sample>): (b: seq<Byte>)
    ensures |b| == 2 * |samples|
  {
    if samples == [] then [] else Encode(samples[..|samples| - 1]) + Le(Unsigned(samples[|samples| - 1]), 2)
  }

  /** What a reader of signed 16-bit little-endian data gets back. */
  function Decode(b: seq<Byte>): seq<Sample> {
    if |b| < 2 then []
    else
      var u := b[0] as int + 256 * b[1] as int;
      [if u >= 32768 then u - 65536 else u] + Decode(b[2..])
  }

  lemma {:induction false} DecodeAppend(b: seq<Byte>, s: Sample)
    requires |b| % 2 == 0
    ensures Decode(b + Le(Unsigned(s), 2)) == Decode(b) + [s]
    decreases |b|
  {
    var tail := Le(Unsigned(s), 2);
    if b == [] {
      assert b + tail == tail && tail[2..] == [];
    } else {
      DecodeAppend(b[2..], s);
      assert (b + tail)[2..] == b[2..] + tail;
    }
  }

  lemma {:induction false} SamplesRoundTrip(samples: seq<Sample>)
    ensures Decode(Encode(samples)) == samples
    decreases |samples|
  {
    if samples != [] {
      var n := |samples| - 1;
      SamplesRoundTrip(samples[..n]);
      DecodeAppend(Encode(samples[..n]), samples[n]);
    }
  }

  lemma EncodeNext(s: seq<Sample>, last: Sample)
    ensures Encode(s + [last]) == Encode(s) + Le(Unsigned(last), 2)
  {
    assert (s + [last])[..|s|] == s;
  }

  lemma {:induction false} EncodeConcat(a: seq<Sample>, b: seq<Sample>)
    ensures Encode(a + b) == Encode(a) + Encode(b)
    decreases |b|
  {
    if b == [] {
      assert a + b == a;
    } else {
      var init, last := b[..|b| - 1], b[|b| - 1];
      EncodeConcat(a, init);
      EncodeConcatNext(a, init, last);
      assert b == init + [last];
    }
  }

  lemma EncodeConcatNext(a: seq<Sample>, init: seq<Sample>, last: Sample)
    requires Encode(a + init) == Encode(a) + Encode(init)
    ensures Encode(a + (init + [last])) == Encode(a) + Encode(init + [last])
  {
    Associative(a, init, [last]);
    EncodeNext(a + init, last);
    EncodeNext(init, last);
    Associative(Encode(a), Encode(init), Le(Unsigned(last), 2));
  }

  // ----- the header

  const RIFF: seq<Byte> := [82, 73, 70, 70]
  const WAVE: seq<Byte> := [87, 65, 86, 69]
  const FMT: seq<Byte> := [102, 109, 116, 32]
  const DATA: seq<Byte> := [100, 97, 116, 97]

  function DataSize(n: int): nat { n * (BITS / 8) % TWO32 }

  function ChunkSize(n: int): nat { (36 + DataSize(n)) % TWO32 }

  /** The 32 bytes between the two sizes: one PCM channel of 16 bits at 16 kHz. */
  function Format(): (r: seq<Byte>)
    ensures |r| == 32
  {
    WAVE + FMT + Le(16, 4) + Le(1, 2) + Le(CHANNELS, 2) + Le(SAMPLE_RATE, 4)
      + Le(SAMPLE_RATE * CHANNELS * BITS / 8, 4) + Le(CHANNELS * BITS / 8, 2) + Le(BITS, 2) + DATA
  }

  lemma LeBytes()
    ensures Le(16, 4) == [16, 0, 0, 0] && Le(1, 2) == [1, 0] && Le(2, 2) == [2, 0] && Le(16, 2) == [16, 0]
    ensures Le(16000, 4) == [128, 62, 0, 0] && Le(32000, 4) == [0, 125, 0, 0]
  {
    assert forall w: nat :: w <= 3 ==> Le(0, w) == seq(w, _ => 0) by {
      assert Le(0, 0) == [] && Le(0, 1) == [0] + Le(0, 0) && Le(0, 2) == [0] + Le(0, 1) && Le(0, 3) == [0] + Le(0, 2);
    }
  }

  /** `WAVE`, `fmt `, 16 bytes of format: PCM, 1 channel, 16000 Hz, 32000 bytes a second, 2 a frame, 16 bits; `data`. */
  lemma FormatBytes()
    ensures Format() == [
      87, 65, 86, 69, 102, 109, 116, 32, 16, 0, 0, 0, 1, 0, 1, 0,
      128, 62, 0, 0, 0, 125, 0, 0, 2, 0, 16, 0, 100, 97, 116, 97]
  {
    LeBytes();
  }

  function Header(n: int): (h: seq<Byte>)
    ensures |h| == 44
  {
    RIFF + Le(ChunkSize(n), 4) + Format() + Le(DataSize(n), 4)
  }

  /** The RIFF and data sizes a reader takes from a file. */
  function RiffField(file: seq<Byte>): nat requires |file| >= 44 { FromLe(file[4..8]) }

  function DataField(file: seq<Byte>): nat requires |file| >= 44 { FromLe(file[40..44]) }

  lemma FieldsOf(a: seq<Byte>, chunk: seq<Byte>, format: seq<Byte>, data: seq<Byte>, rest: seq<Byte>)
    requires |a| == |chunk| == |data| == 4 && |format| == 32
    ensures (a + chunk + format + data + rest)[4..8] == chunk
    ensures (a + chunk + format + data + rest)[40..44] == data
    ensures (a + chunk + format + data + rest)[..4] == a && (a + chunk + format + data + rest)[8..40] == format
  {
  }

  lemma HeaderFields(n: int, rest: seq<Byte>)
    ensures RiffField(Header(n) + rest) == ChunkSize(n) && DataField(Header(n) + rest) == DataSize(n)
    ensures (Header(n) + rest)[..4] == RIFF && (Header(n) + rest)[8..40] == Format()
  {
    var chunk, format, data := Le(ChunkSize(n), 4), Format(), Le(DataSize(n), 4);
    FieldsOf(RIFF, chunk, format, data, rest);
    Widths();
    LeRoundTrip(ChunkSize(n), 4);
    LeRoundTrip(DataSize(n), 4);
  }

  lemma WrapsOnlyWhenLarge(n: nat)
    ensures DataSize(n % TWO32) == 2 * n <==> 2 * n < TWO32
    ensures ChunkSize(n % TWO32) == 36 + 2 * n <==> 36 + 2 * n < TWO32
  {
    if n < TWO32 { assert n % TWO32 == n; }
  }

  /** The sizes are true of n samples exactly up to 2147483629, and 2147483647 for the data size alone. */
  lemma SizesExact(n: nat, rest: seq<Byte>)
    ensures var file := Header(n % TWO32) + rest;
      && (RiffField(file) == 36 + 2 * n <==> n <= 2147483629)
      && (DataField(file) == 2 * n <==> n <= 2147483647)
  {
    HeaderFields(n % TWO32, rest);
    WrapsOnlyWhenLarge(n);
  }

  // ----- the writer

  /** Writing at a position replaces what is there and extends the file when it runs past the end. */
  function Overwrite(bytes: seq<Byte>, at: nat, buf: seq<Byte>): seq<Byte>
    requires at <= |bytes|
  {
    bytes[..at] + buf + (if at + |buf| <= |bytes| then bytes[at + |buf|..] else [])
  }

  lemma OverwriteEnds(bytes: seq<Byte>, buf: seq<Byte>, rest: seq<Byte>)
    ensures Overwrite(bytes, |bytes|, buf) == bytes + buf
    ensures |bytes| == |buf| ==> Overwrite(bytes + rest, 0, buf) == buf + rest
  {
  }

  lemma EmptyFile(stub: seq<Byte>)
    ensures Overwrite([], 0, stub) == stub && stub + Encode([]) == stub
  {
  }

  class File {
    var bytes: seq<Byte>
    var cursor: nat
    var open: bool

    constructor ()
      ensures bytes == [] && cursor == 0 && open
    {
      bytes, cursor, open := [], 0, true;
    }

    method Write(buf: seq<Byte>)
      requires open && cursor <= |bytes|
      modifies this
      ensures open && cursor == old(cursor) + |buf|
      ensures bytes == Overwrite(old(bytes), old(cursor), buf)
    {
      bytes := bytes[..cursor] + buf + (if cursor + |buf| <= |bytes| then bytes[cursor + |buf|..] else []);
      cursor := cursor + |buf|;
    }

    method SeekStart()
      modifies this
      ensures cursor == 0 && bytes == old(bytes) && open == old(open)
    {
      cursor := 0;
    }

    method Close()
      modifies this
      ensures !open && bytes == old(bytes)
    {
      open := false;
    }
  }

  method Pack(s: seq<Sample>) returns (buf: array<Byte>)
    ensures fresh(buf) && buf[..] == Encode(s)
  {
    buf := new Byte[2 * |s|](_ => 0);
    for i := 0 to |s|
      invariant buf[..2 * i] == Encode(s[..i])
    {
      assert s[..i + 1][..i] == s[..i];
      Put(buf, 2 * i, Le(Unsigned(s[i]), 2));
    }
    assert s[..|s|] == s && buf[..2 * |s|] == buf[..];
  }

  /** `copy` and the `PutUint` calls: bytes laid down from a position on. */
  method Put(buf: array<Byte>, at: nat, b: seq<Byte>)
    requires at + |b| <= buf.Length
    modifies buf
    ensures buf[..at + |b|] == old(buf[..at]) + b
  {
    for i := 0 to |b|
      invariant buf[..at + i] == old(buf[..at]) + b[..i]
    {
      buf[at + i] := b[i];
    }
    assert b[..|b|] == b;
  }

  method PutNext(buf: array<Byte>, at: nat, b: seq<Byte>, ghost front: seq<Byte>, ghost part: seq<Byte>)
    requires at + |b| <= buf.Length && buf[..at] == front + part
    modifies buf
    ensures buf[..at + |b|] == front + (part + b)
  {
    Put(buf, at, b);
    assert front + part + b == front + (part + b);
  }

  method PutFormat(buf: array<Byte>)
    requires buf.Length == 44
    modifies buf
    ensures buf[..40] == old(buf[..8]) + Format()
  {
    ghost var front, part := buf[..8], [];
    PutNext(buf, 8, WAVE, front, part);
    part := part + WAVE;
    PutNext(buf, 12, FMT, front, part);
    part := part + FMT;
    PutNext(buf, 16, Le(16, 4), front, part);
    part := part + Le(16, 4);
    PutNext(buf, 20, Le(1, 2), front, part);
    part := part + Le(1, 2);
    PutNext(buf, 22, Le(CHANNELS, 2), front, part);
    part := part + Le(CHANNELS, 2);
    PutNext(buf, 24, Le(SAMPLE_RATE, 4), front, part);
    part := part + Le(SAMPLE_RATE, 4);
    PutNext(buf, 28, Le(SAMPLE_RATE * CHANNELS * BITS / 8, 4), front, part);
    part := part + Le(SAMPLE_RATE * CHANNELS * BITS / 8, 4);
    PutNext(buf, 32, Le(CHANNELS * BITS / 8, 2), front, part);
    part := part + Le(CHANNELS * BITS / 8, 2);
    PutNext(buf, 34, Le(BITS, 2), front, part);
    part := part + Le(BITS, 2);
    PutNext(buf, 36, DATA, front, part);
    assert [] + WAVE == WAVE;
  }

  method FormatHeader(n: int) returns (buf: array<Byte>)
    ensures fresh(buf) && buf[..] == Header(n)
  {
    buf := new Byte[44](_ => 0);
    Put(buf, 0, RIFF);
    Put(buf, 4, Le(ChunkSize(n), 4));
    PutFormat(buf);
    Put(buf, 40, Le(DataSize(n), 4));
    assert buf[..44] == buf[..];
    assert buf[..0] + RIFF == RIFF;
  }

  /** Adding to a 32-bit counter. */
  lemma CounterWraps(a: nat, b: nat)
    ensures (a % TWO32 + b % TWO32) % TWO32 == (a + b) % TWO32
  {
    var q := a / TWO32 + b / TWO32;
    assert a + b == q * TWO32 + (a % TWO32 + b % TWO32);
  }

  class Writer {
    const file: File
    var samples: int
    ghost var stub: seq<Byte>
    ghost var written: seq<Sample>

    /** A header stub is followed by everything written so far; the counter is 32 bits wide. */
    ghost predicate Valid()
      reads this, file
    {
      && file.open && file.cursor == |file.bytes|
      && |stub| == 44 && file.bytes == stub + Encode(written)
      && samples == |written| % TWO32
    }

    /** A fresh, empty file. */
    constructor ()
      ensures Valid() && fresh(file) && written == [] && samples == 0 && stub == Header(samples)
    {
      file := new File();
      samples, written, stub := 0, [], Header(0);
      EmptyFile(Header(0));
      new;
      WriteHeader(file, samples);
    }

    static method WriteHeader(f: File, n: int)
      requires f.open && f.cursor == 0
      modifies f
      ensures f.open && f.cursor == 44 && f.bytes == Overwrite(old(f.bytes), 0, Header(n))
    {
      var buf := FormatHeader(n);
      f.Write(buf[..]);
    }

    method WritePCM16(s: seq<Sample>)
      requires Valid()
      modifies this`samples, this`written, file
      ensures Valid() && written == old(written) + s
    {
      var buf := Pack(s);
      EncodeConcat(written, s);
      OverwriteEnds(file.bytes, buf[..], []);
      assert file.bytes + buf[..] == stub + Encode(written + s);
      file.Write(buf[..]);
      CounterWraps(|written|, |s|);
      samples := (samples + |s| % TWO32) % TWO32;
      written := written + s;
    }

    method Close()
      requires Valid()
      modifies file
      ensures !file.open
      ensures file.bytes == Header(|written| % TWO32) + Encode(written)
    {
      file.SeekStart();
      OverwriteEnds(stub, Header(samples), Encode(written));
      WriteHeader(file, samples);
      file.Close();
    }
  }

  /** A closed file is 44 + 2n bytes, reads back as the samples written, and its sizes are true as long as they fit. */
  lemma ClosedFile(bytes: seq<Byte>, written: seq<Sample>)
    requires bytes == Header(|written| % TWO32) + Encode(written)
    ensures |bytes| == 44 + 2 * |written|
    ensures Decode(bytes[44..]) == written
    ensures bytes[..4] == [82, 73, 70, 70] && bytes[8..40] == [
      87, 65, 86, 69, 102, 109, 116, 32, 16, 0, 0, 0, 1, 0, 1, 0,
      128, 62, 0, 0, 0, 125, 0, 0, 2, 0, 16, 0, 100, 97, 116, 97]
    ensures RiffField(bytes) == |bytes| - 8 <==> |written| <= 2147483629
    ensures DataField(bytes) == |bytes[44..]| <==> |written| <= 2147483647
  {
    HeaderFields(|written| % TWO32, Encode(written));
    FormatBytes();
    assert bytes[44..] == Encode(written);
    SamplesRoundTrip(written);
    SizesExact(|written|, Encode(written));
  }

  /** Any sequence of writes and a close, on a fresh file. */
  method Session(chunks: seq<seq<Sample>>) returns (bytes: seq<Byte>)
    ensures |bytes| == 44 + 2 * |Flat(chunks)| && Decode(bytes[44..]) == Flat(chunks)
    ensures |Flat(chunks)| <= 2147483629 ==>
      RiffField(bytes) == 36 + 2 * |Flat(chunks)| && DataField(bytes) == 2 * |Flat(chunks)|
  {
    var w := new Writer();
    for i := 0 to |chunks|
      invariant w.Valid() && fresh(w) && fresh(w.file) && w.written == Flat(chunks[..i])
    {
      FlatNext(chunks, i + 1);
      w.WritePCM16(chunks[i]);
    }
    assert chunks[..|chunks|] == chunks;
    w.Close();
    bytes := w.file.bytes;
    ClosedFile(bytes, w.written);
  }
}
