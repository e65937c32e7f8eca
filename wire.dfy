/**
 * Byte-level decoding of the `window-change` request payload
 * (section 6.7 of RFC 4254): four big-endian unsigned 32-bit integers,
 * terminal width in columns, height in rows, then pixel width and pixel
 * height. The server reads the first two and narrows them to 16 bits
 * for the terminal resize record.
 */
module Wire {

  /** One octet of a request payload (Go's `byte`). */
  type byte = x: int | 0 <= x < 0x100

  const Uint32Limit: int := 0x1_0000_0000
  const Uint16Limit: int := 0x1_0000

  /** `binary.BigEndian.Uint32`: the four leading octets, most significant first. */
  function Uint32BE(b: seq<byte>): (v: int)
    requires |b| >= 4
    ensures 0 <= v < Uint32Limit
    ensures v / 0x100_0000 == b[0] && v % 0x100 == b[3]
  {
    b[0] as int * 0x100_0000 + b[1] as int * 0x1_0000 + b[2] as int * 0x100 + b[3] as int
  }

  /** Splitting off the lowest octet of `hi * 256 + lo`. */
  lemma SplitOctet(hi: int, lo: int)
    requires 0 <= lo < 0x100
    ensures (hi * 0x100 + lo) / 0x100 == hi && (hi * 0x100 + lo) % 0x100 == lo
  {
  }

  /** `binary.BigEndian.PutUint32`: the four octets of `v`, most significant first. */
  function PutUint32BE(v: int): (b: seq<byte>)
    requires 0 <= v < Uint32Limit
    ensures |b| == 4
  {
    [v / 0x100_0000, (v / 0x1_0000) % 0x100, (v / 0x100) % 0x100, v % 0x100]
  }

  /** Encoding then decoding a 32-bit value gives the value back. */
  lemma DecodeEncodeUint32(v: int)
    requires 0 <= v < Uint32Limit
    ensures Uint32BE(PutUint32BE(v)) == v
  {
    var q1, d := v / 0x100, v % 0x100;
    var q2, c := q1 / 0x100, q1 % 0x100;
    var a, b := q2 / 0x100, q2 % 0x100;
    assert v == ((a * 0x100 + b) * 0x100 + c) * 0x100 + d;
    assert v / 0x1_0000 == q2 by {
      assert v == q2 * 0x1_0000 + (c * 0x100 + d);
    }
    assert v / 0x100_0000 == a by {
      assert v == a * 0x100_0000 + (b * 0x1_0000 + c * 0x100 + d);
    }
  }

  /** Decoding then encoding four octets gives the octets back. */
  lemma EncodeDecodeUint32(b: seq<byte>)
    requires |b| == 4
    ensures PutUint32BE(Uint32BE(b)) == b
  {
    var v := Uint32BE(b);
    var hi2 := b[0] as int * 0x100 + b[1] as int;
    var hi1 := hi2 * 0x100 + b[2] as int;
    assert v == hi1 * 0x100 + b[3] as int;
    SplitOctet(hi1, b[3] as int);
    SplitOctet(hi2, b[2] as int);
    SplitOctet(b[0] as int, b[1] as int);
    assert v / 0x1_0000 == hi2;
    assert v / 0x100_0000 == b[0] as int;
  }

  /**
   * `parseDims`: the width (columns) from octets 0..4 and the height (rows)
   * from octets 4..8. A payload shorter than eight octets makes the Go
   * decode panic, so the length is a precondition here; the dispatcher
   * models what happens to a short payload.
   */
  function ParseDims(b: seq<byte>): (d: (int, int))
    requires |b| >= 8
    ensures 0 <= d.0 < Uint32Limit && 0 <= d.1 < Uint32Limit
    ensures b[..8] == PutUint32BE(d.0) + PutUint32BE(d.1)
  {
    EncodeDecodeUint32(b[..4]);
    EncodeDecodeUint32(b[4..8]);
    (Uint32BE(b), Uint32BE(b[4..]))
  }

  /** The `window-change` payload a client sends for the given sizes. */
  function WindowChangePayload(cols: int, rows: int, pixelWidth: int, pixelHeight: int): (p: seq<byte>)
    requires 0 <= cols < Uint32Limit && 0 <= rows < Uint32Limit
    requires 0 <= pixelWidth < Uint32Limit && 0 <= pixelHeight < Uint32Limit
    ensures |p| == 16
  {
    PutUint32BE(cols) + PutUint32BE(rows) + PutUint32BE(pixelWidth) + PutUint32BE(pixelHeight)
  }

  /**
   * Round trip: the server reads back exactly the columns and rows the
   * client encoded, whatever the pixel fields and whatever follows them.
   */
  lemma ParseWindowChange(cols: int, rows: int, pixelWidth: int, pixelHeight: int, rest: seq<byte>)
    requires 0 <= cols < Uint32Limit && 0 <= rows < Uint32Limit
    requires 0 <= pixelWidth < Uint32Limit && 0 <= pixelHeight < Uint32Limit
    ensures ParseDims(WindowChangePayload(cols, rows, pixelWidth, pixelHeight) + rest) == (cols, rows)
  {
    var p := WindowChangePayload(cols, rows, pixelWidth, pixelHeight) + rest;
    assert p[..4] == PutUint32BE(cols);
    assert p[4..8] == PutUint32BE(rows);
    DecodeEncodeUint32(cols);
    DecodeEncodeUint32(rows);
  }

  /** Only the first eight octets of a payload decide its dimensions. */
  lemma ParseDimsIgnoresTail(a: seq<byte>, b: seq<byte>)
    requires |a| >= 8 && |b| >= 8
    ensures ParseDims(a) == ParseDims(b) <==> a[..8] == b[..8]
  {
    if a[..8] == b[..8] {
      assert a[..4] == b[..4] && a[4..8] == b[4..8];
    }
    if ParseDims(a) == ParseDims(b) {
      var d := ParseDims(a);
      assert a[..8] == PutUint32BE(d.0) + PutUint32BE(d.1) == b[..8];
    }
  }

  /** The 80 x 24 payload with arbitrary pixel fields decodes to (80, 24). */
  lemma ParseDims80x24(pixels: seq<byte>)
    requires |pixels| == 8
    ensures ParseDims([0, 0, 0, 0x50, 0, 0, 0, 0x18] + pixels) == (80, 24)
  {
  }

  /**
   * Go's `uint16(x)` conversion of a 32-bit value: keeps the low sixteen
   * bits, so a value that already fits is passed unchanged.
   */
  function ToUint16(x: int): (r: int)
    requires 0 <= x < Uint32Limit
    ensures 0 <= r < Uint16Limit
    ensures (x - r) % Uint16Limit == 0
    ensures x < Uint16Limit ==> r == x
  {
    x % Uint16Limit
  }
}
