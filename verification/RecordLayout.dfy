/** Record layout (src/core/record.h; the layout loop of BatchInsert and the writes of InternalInsert in
    src/core/fishstore.h).

    A record is a header word, key pointers of two words each, the payload, the optional bytes and
    padding to 8. Bit fields are packed into 64-bit words; a value that does not fit is cut to its
    width. PSF results are pointers into memory: those that start inside the payload are referred to,
    the others are copied into the optional region. */
module RecordLayout {

  type byte = x: int | 0 <= x < 256
  type pos = x: int | 0 < x witness 1

  // ---------------------------------------------------------------- words

  function Pow256(n: nat): nat { if n == 0 then 1 else 256 * Pow256(n - 1) }

  /** The n low bytes of w, lowest first. */
  function Store(w: nat, n: nat): (s: seq<byte>)
    ensures |s| == n
  {
    if n == 0 then [] else [w % 256] + Store(w / 256, n - 1)
  }

  function Load(s: seq<byte>): nat { if s == [] then 0 else s[0] + 256 * Load(s[1..]) }

  lemma {:induction false} LoadStore(w: nat, n: nat)
    requires w < Pow256(n)
    ensures Load(Store(w, n)) == w
  {
    if n > 0 {
      LoadStore(w / 256, n - 1);
      assert Store(w, n)[1..] == Store(w / 256, n - 1);
    }
  }

  // ---------------------------------------------------------------- bit fields

  /** A struct of bit fields in a word: values from the low bits up, each cut to its width (a field of b
      bits has width 2^b). */
  function Pack(values: seq<nat>, widths: seq<pos>): nat
    requires |values| == |widths|
  {
    if values == [] then 0 else values[0] % widths[0] + widths[0] * Pack(values[1..], widths[1..])
  }

  /** The low field, and what is left above it. */
  function Low(word: nat, m: pos): (r: nat)
    ensures r < m
  {
    word % m
  }

  function High(word: nat, m: pos): (r: nat)
  {
    Quotient(word, m);
    word / m
  }

  lemma Quotient(word: nat, m: pos)
    ensures word / m >= 0
  {
    var q := word / m;
    assert word == m * q + word % m;
    assert q <= -1 ==> m * q + m <= 0;
  }

  function Unpack(word: nat, widths: seq<pos>): (values: seq<nat>)
    ensures |values| == |widths|
    decreases |widths|
  {
    if widths == [] then [] else [Low(word, widths[0])] + Unpack(High(word, widths[0]), widths[1..])
  }

  function Capacity(widths: seq<pos>): nat { if widths == [] then 1 else widths[0] * Capacity(widths[1..]) }

  function Cut(values: seq<nat>, widths: seq<pos>): (r: seq<nat>)
    requires |values| == |widths|
    ensures |r| == |values|
  {
    seq(|values|, i requires 0 <= i < |values| => values[i] % widths[i])
  }

  lemma LowAndHigh(low: nat, high: nat, m: nat)
    requires low < m
    ensures (low + m * high) % m == low && (low + m * high) / m == high
  {
    var x := low + m * high;
    var k := x / m - high;
    assert m * k == low - x % m;
    assert k >= 1 ==> m * k >= m;
    assert k <= -1 ==> m * k + m <= 0;
  }

  /** Every field reads back, cut to its width; so a field that fits reads back unchanged. */
  lemma {:induction false} FieldsRoundTrip(values: seq<nat>, widths: seq<pos>)
    requires |values| == |widths|
    ensures Unpack(Pack(values, widths), widths) == Cut(values, widths)
  {
    if values != [] {
      FieldsRoundTrip(values[1..], widths[1..]);
      LowAndHigh(values[0] % widths[0], Pack(values[1..], widths[1..]), widths[0]);
      assert Cut(values, widths) == [values[0] % widths[0]] + Cut(values[1..], widths[1..]);
    }
  }

  lemma {:induction false} Times(m: nat, a: nat, b: nat)
    requires a <= b
    ensures m * a <= m * b
  {
    if a < b {
      Times(m, a, b - 1);
      assert m * b == m * (b - 1) + m;
    }
  }

  lemma Below(low: nat, m: pos, p: nat, c: nat)
    requires low < m && p < c
    ensures low + m * p < m * c
  {
    Times(m, p + 1, c);
    assert m * (p + 1) == m * p + m;
  }

  lemma {:induction false} PackFits(values: seq<nat>, widths: seq<pos>)
    requires |values| == |widths|
    ensures Pack(values, widths) < Capacity(widths)
  {
    if values != [] {
      PackFits(values[1..], widths[1..]);
      Below(values[0] % widths[0], widths[0], Pack(values[1..], widths[1..]), Capacity(widths[1..]));
    }
  }

  predicate Fits(values: seq<nat>, widths: seq<pos>) {
    |values| == |widths| && forall i | 0 <= i < |values| :: values[i] < widths[i]
  }

  lemma FitsCut(values: seq<nat>, widths: seq<pos>)
    requires Fits(values, widths)
    ensures Cut(values, widths) == values
  {
  }

  // ---------------------------------------------------------------- header and key pointers

  /** RecordInfo: ptr_cnt, payload_size, optional_size, checkpoint_version, invalid, tombstone, final_bit. */
  const HEADER_WIDTHS: seq<pos> := [0x8000, 0x200_0000, 0x100, 0x2000, 2, 2, 2]

  datatype Header = Header(pointers: nat, payload: nat, optional: nat, version: nat, invalid: bool, tombstone: bool,
                           final: bool)

  function Bit(b: bool): nat { if b then 1 else 0 }

  function HeaderFields(h: Header): seq<nat> {
    [h.pointers, h.payload, h.optional, h.version, Bit(h.invalid), Bit(h.tombstone), Bit(h.final)]
  }

  function HeaderOf(fields: seq<nat>): Header
    requires |fields| == 7
  {
    Header(fields[0], fields[1], fields[2], fields[3], fields[4] == 1, fields[5] == 1, fields[6] == 1)
  }

  predicate HeaderFits(h: Header) { Fits(HeaderFields(h), HEADER_WIDTHS) }

  function HeaderWord(h: Header): nat { Pack(HeaderFields(h), HEADER_WIDTHS) }

  lemma HeaderRoundTrip(h: Header)
    requires HeaderFits(h)
    ensures HeaderOf(Unpack(HeaderWord(h), HEADER_WIDTHS)) == h && HeaderWord(h) < Capacity(HEADER_WIDTHS)
  {
    FieldsRoundTrip(HeaderFields(h), HEADER_WIDTHS);
    FitsCut(HeaderFields(h), HEADER_WIDTHS);
    PackFits(HeaderFields(h), HEADER_WIDTHS);
  }

  /** Mode 0 refers to `size` bytes at `offset` from the payload; mode 1 holds the value itself. */
  datatype KeyPointer =
    | General(index: nat, prev: nat, psf: nat, offset: nat, size: nat)
    | Inline(index: nat, prev: nat, psf: nat, value: nat)

  /** mode, ptr_offset, prev_address; then general_psf_id, value_offset, value_size or inline_psf_id, value. */
  const CONTROL_WIDTHS: seq<pos> := [2, 0x8000, 0x1_0000_0000_0000]
  const GENERAL_WIDTHS: seq<pos> := [0x4000, 0x200_0000, 0x200_0000]
  const INLINE_WIDTHS: seq<pos> := [0x1_0000_0000, 0x1_0000_0000]

  function ControlFields(k: KeyPointer): seq<nat> { [if k.General? then 0 else 1, k.index, k.prev] }

  function BodyFields(k: KeyPointer): seq<nat> { if k.General? then [k.psf, k.offset, k.size] else [k.psf, k.value] }

  function BodyWidths(mode: nat): seq<pos> { if mode == 0 then GENERAL_WIDTHS else INLINE_WIDTHS }

  predicate PointerFits(k: KeyPointer) {
    Fits(ControlFields(k), CONTROL_WIDTHS) && Fits(BodyFields(k), BodyWidths(ControlFields(k)[0]))
  }

  function ControlWord(k: KeyPointer): nat { Pack(ControlFields(k), CONTROL_WIDTHS) }

  function BodyWord(k: KeyPointer): nat { Pack(BodyFields(k), BodyWidths(ControlFields(k)[0])) }

  function PointerOf(control: nat, body: nat): KeyPointer {
    var c := Unpack(control, CONTROL_WIDTHS);
    var b := Unpack(body, BodyWidths(c[0]));
    if c[0] == 0 then General(c[1], c[2], b[0], b[1], b[2]) else Inline(c[1], c[2], b[0], b[1])
  }

  lemma PointerRoundTrip(k: KeyPointer)
    requires PointerFits(k)
    ensures PointerOf(ControlWord(k), BodyWord(k)) == k
    ensures ControlWord(k) < Capacity(CONTROL_WIDTHS) && BodyWord(k) < Capacity(BodyWidths(ControlFields(k)[0]))
  {
    var widths := BodyWidths(ControlFields(k)[0]);
    FieldsRoundTrip(ControlFields(k), CONTROL_WIDTHS);
    FitsCut(ControlFields(k), CONTROL_WIDTHS);
    PackFits(ControlFields(k), CONTROL_WIDTHS);
    FieldsRoundTrip(BodyFields(k), widths);
    FitsCut(BodyFields(k), widths);
    PackFits(BodyFields(k), widths);
  }

  /** The structs fill a 64-bit word. */
  lemma WordCapacity()
    ensures Capacity(HEADER_WIDTHS) == Capacity(CONTROL_WIDTHS) == Pow256(8)
    ensures Capacity(GENERAL_WIDTHS) == Capacity(INLINE_WIDTHS) == Pow256(8)
  {
    CapacityOf(HEADER_WIDTHS);
    CapacityOf(CONTROL_WIDTHS);
    CapacityOf(GENERAL_WIDTHS);
    CapacityOf(INLINE_WIDTHS);
    assert Pow256(4) == 0x1_0000_0000;
    assert Pow256(8) == 256 * 256 * 256 * 256 * Pow256(4);
  }

  lemma CapacityOf(w: seq<pos>)
    ensures |w| == 2 ==> Capacity(w) == w[0] * w[1]
    ensures |w| == 3 ==> Capacity(w) == w[0] * (w[1] * w[2])
    ensures |w| == 7 ==> Capacity(w) == w[0] * (w[1] * (w[2] * (w[3] * (w[4] * (w[5] * w[6])))))
  {
    if |w| == 7 {
      CapacityOf(w[4..]);
      assert Capacity(w[3..]) == w[3] * Capacity(w[4..]) by { assert w[3..][1..] == w[4..]; }
      assert Capacity(w[2..]) == w[2] * Capacity(w[3..]) by { assert w[2..][1..] == w[3..]; }
      assert Capacity(w[1..]) == w[1] * Capacity(w[2..]) by { assert w[1..][1..] == w[2..]; }
    } else if |w| == 3 {
      assert Capacity(w[2..]) == w[2];
      assert w[1..][1..] == w[2..];
    } else if |w| == 2 {
      assert Capacity(w[1..]) == w[1];
    }
  }

  /** One field in front of the others. */
  lemma PackStep(x: nat, v: seq<nat>, m: pos, w: seq<pos>)
    requires x < m && |v| == |w|
    ensures Pack([x] + v, [m] + w) == x + m * Pack(v, w)
  {
    assert ([x] + v)[1..] == v && ([m] + w)[1..] == w;
    LowAndHigh(x, 0, m);
  }

  lemma PackTwo(a: nat, b: nat, l: pos, m: pos)
    requires a < l && b < m
    ensures Pack([a, b], [l, m]) == a + l * b
  {
    assert [a, b] == [a] + ([b] + []) && [l, m] == [l] + ([m] + []);
    PackStep(b, [], m, []);
    PackStep(a, [b] + [], l, [m] + []);
  }

  lemma PackThree(a: nat, b: nat, c: nat, l: pos, m: pos, n: pos)
    requires a < l && b < m && c < n
    ensures Pack([a, b, c], [l, m, n]) == a + l * (b + m * c)
  {
    assert [a, b, c] == [a] + [b, c] && [l, m, n] == [l] + [m, n];
    PackTwo(b, c, m, n);
    PackStep(a, [b, c], l, [m, n]);
  }

  lemma HeaderNested(v: seq<nat>)
    requires Fits(v, HEADER_WIDTHS)
    ensures Pack(v, HEADER_WIDTHS) ==
              v[0] + 0x8000 * (v[1] + 0x200_0000 * (v[2] + 0x100 * (v[3] + 0x2000 * Pack(v[4..], [2, 2, 2]))))
  {
    var flags := v[4..];
    assert v == [v[0]] + ([v[1]] + ([v[2]] + ([v[3]] + flags)));
    assert HEADER_WIDTHS == [0x8000] + ([0x200_0000] + ([0x100] + ([0x2000] + [2, 2, 2])));
    PackStep(v[3], flags, 0x2000, [2, 2, 2]);
    PackStep(v[2], [v[3]] + flags, 0x100, [0x2000] + [2, 2, 2]);
    PackStep(v[1], [v[2]] + ([v[3]] + flags), 0x200_0000, [0x100] + ([0x2000] + [2, 2, 2]));
    PackStep(v[0], [v[1]] + ([v[2]] + ([v[3]] + flags)), 0x8000, [0x200_0000] + ([0x100] + ([0x2000] + [2, 2, 2])));
  }

  /** Where the fields of a header are: the bit positions of RecordInfo. */
  lemma HeaderBits(h: Header)
    requires HeaderFits(h)
    ensures HeaderWord(h) == h.pointers + 0x8000 * h.payload + 0x100_0000_0000 * h.optional
                             + 0x1_0000_0000_0000 * h.version + 0x2000_0000_0000_0000 * Bit(h.invalid)
                             + 0x4000_0000_0000_0000 * Bit(h.tombstone) + 0x8000_0000_0000_0000 * Bit(h.final)
  {
    HeaderNested(HeaderFields(h));
    assert HeaderFields(h)[4..] == [Bit(h.invalid), Bit(h.tombstone), Bit(h.final)];
    PackThree(Bit(h.invalid), Bit(h.tombstone), Bit(h.final), 2, 2, 2);
  }

  /** And those of a key pointer's two words. */
  lemma PointerBits(k: KeyPointer)
    requires PointerFits(k)
    ensures ControlWord(k) == (if k.General? then 0 else 1) + 2 * k.index + 0x1_0000 * k.prev
    ensures k.General? ==> BodyWord(k) == k.psf + 0x4000 * k.offset + 0x80_0000_0000 * k.size
    ensures k.Inline? ==> BodyWord(k) == k.psf + 0x1_0000_0000 * k.value
  {
    var c, b := ControlFields(k), BodyFields(k);
    assert c[1] < CONTROL_WIDTHS[1] && c[2] < CONTROL_WIDTHS[2];
    PackThree(if k.General? then 0 else 1, k.index, k.prev, 2, 0x8000, 0x1_0000_0000_0000);
    if k.General? {
      assert b[0] < GENERAL_WIDTHS[0] && b[1] < GENERAL_WIDTHS[1] && b[2] < GENERAL_WIDTHS[2];
      PackThree(k.psf, k.offset, k.size, 0x4000, 0x200_0000, 0x200_0000);
    } else {
      assert b[0] < INLINE_WIDTHS[0] && b[1] < INLINE_WIDTHS[1];
      PackTwo(k.psf, k.value, 0x1_0000_0000, 0x1_0000_0000);
    }
  }

  // ---------------------------------------------------------------- the record in bytes

  function Pad(n: nat): (r: nat)
    ensures n <= r < n + 8 && r % 8 == 0
  {
    (n + 7) / 8 * 8
  }

  /** Record::size and Record::ptr_offset. */
  function Size(pointers: nat, payload: nat, optional: nat): nat { Pad(8 + 16 * pointers + payload + optional) }

  function PtrOffset(i: nat): nat { 8 + 16 * i }

  /** get_record: back from key pointer i to its record. */
  function GetRecord(address: int, k: KeyPointer): int { address - 16 * k.index - 8 }

  datatype Record = Record(header: Header, pointers: seq<KeyPointer>, payload: seq<byte>, optional: seq<byte>)

  /** The header describes the record, key pointer i says it is the i-th, and all fields fit. */
  predicate WellFormed(r: Record) {
    && HeaderFits(r.header) && r.header.pointers == |r.pointers| && r.header.payload == |r.payload|
    && r.header.optional == |r.optional|
    && forall i | 0 <= i < |r.pointers| :: PointerFits(r.pointers[i]) && r.pointers[i].index == i
  }

  /** The two words of a key pointer. */
  function Chunk(k: KeyPointer): (s: seq<byte>)
    ensures |s| == 16
  {
    Store(ControlWord(k), 8) + Store(BodyWord(k), 8)
  }

  predicate Sixteen(chunks: seq<seq<byte>>) { forall i | 0 <= i < |chunks| :: |chunks[i]| == 16 }

  function Concat(chunks: seq<seq<byte>>): (s: seq<byte>)
    requires Sixteen(chunks)
    ensures |s| == 16 * |chunks|
  {
    if chunks == [] then [] else Concat(chunks[..|chunks| - 1]) + chunks[|chunks| - 1]
  }

  function Chunks(ks: seq<KeyPointer>): (r: seq<seq<byte>>)
    ensures |r| == |ks| && Sixteen(r)
  {
    seq(|ks|, i requires 0 <= i < |ks| => Chunk(ks[i]))
  }

  function Zeros(n: nat): (s: seq<byte>)
    ensures |s| == n
  {
    seq(n, _ => 0)
  }

  /** What InternalInsert leaves in the log. */
  function Write(r: Record): (s: seq<byte>)
    requires WellFormed(r)
    ensures |s| == Size(r.header.pointers, r.header.payload, r.header.optional)
  {
    var body := Store(HeaderWord(r.header), 8) + Concat(Chunks(r.pointers)) + r.payload + r.optional;
    body + Zeros(Pad(|body|) - |body|)
  }

  function ReadHeader(log: seq<byte>, a: nat): Header
    requires a + 8 <= |log|
  {
    HeaderOf(Unpack(Load(log[a..a + 8]), HEADER_WIDTHS))
  }

  function ReadPointer(log: seq<byte>, a: nat): KeyPointer
    requires a + 16 <= |log|
  {
    PointerOf(Load(log[a..a + 8]), Load(log[a + 8..a + 16]))
  }

  /** The bytes x lie in s at offset b. */
  predicate Has(s: seq<byte>, b: nat, x: seq<byte>) {
    b + |x| <= |s| && forall i {:trigger x[i]} | 0 <= i < |x| :: s[b + i] == x[i]
  }

  lemma HasWithin(log: seq<byte>, a: nat, s: seq<byte>, b: nat, x: seq<byte>)
    requires Has(log, a, s) && Has(s, b, x)
    ensures Has(log, a + b, x)
  {
    assert forall i | 0 <= i < |x| :: log[a + b + i] == s[b + i] == x[i];
  }

  lemma HasPiece(front: seq<byte>, x: seq<byte>, back: seq<byte>)
    ensures Has(front + x + back, |front|, x)
  {
  }

  lemma HasSlice(s: seq<byte>, b: nat, x: seq<byte>)
    requires Has(s, b, x)
    ensures s[b..b + |x|] == x
  {
  }

  lemma HasFront(front: seq<byte>, back: seq<byte>, b: nat, x: seq<byte>)
    requires Has(front, b, x)
    ensures Has(front + back, b, x)
  {
  }

  lemma HasBack(front: seq<byte>, back: seq<byte>)
    ensures Has(front + back, |front|, back)
  {
  }

  lemma {:induction false} ChunkAt(chunks: seq<seq<byte>>, i: nat)
    requires Sixteen(chunks) && i < |chunks|
    ensures Has(Concat(chunks), 16 * i, chunks[i])
  {
    var n := |chunks| - 1;
    if i < n {
      ChunkAt(chunks[..n], i);
      HasFront(Concat(chunks[..n]), chunks[n], 16 * i, chunks[i]);
    } else {
      HasBack(Concat(chunks[..n]), chunks[n]);
    }
  }

  lemma WritePieces(r: Record)
    requires WellFormed(r)
    ensures Has(Write(r), 0, Store(HeaderWord(r.header), 8)) && Has(Write(r), 8, Concat(Chunks(r.pointers)))
    ensures Has(Write(r), PtrOffset(|r.pointers|), r.payload + r.optional)
  {
    var h, ps, data := Store(HeaderWord(r.header), 8), Concat(Chunks(r.pointers)), r.payload + r.optional;
    var body := h + ps + r.payload + r.optional;
    var zeros := Zeros(Pad(|body|) - |body|);
    Regroup(h, ps, r.payload, r.optional, zeros);
    HasPiece([], h, ps + data + zeros);
    HasPiece(h, ps, data + zeros);
    HasPiece(h + ps, data, zeros);
  }

  lemma Regroup(h: seq<byte>, ps: seq<byte>, payload: seq<byte>, optional: seq<byte>, zeros: seq<byte>)
    ensures var w, data := h + ps + payload + optional + zeros, payload + optional;
            w == [] + h + (ps + data + zeros) && w == h + ps + (data + zeros) && w == h + ps + data + zeros
  {
  }

  lemma LoadHeader(h: Header)
    requires HeaderFits(h)
    ensures HeaderOf(Unpack(Load(Store(HeaderWord(h), 8)), HEADER_WIDTHS)) == h
  {
    HeaderRoundTrip(h);
    WordCapacity();
    LoadStore(HeaderWord(h), 8);
  }

  lemma LoadPointer(k: KeyPointer)
    requires PointerFits(k)
    ensures PointerOf(Load(Store(ControlWord(k), 8)), Load(Store(BodyWord(k), 8))) == k
  {
    PointerRoundTrip(k);
    WordCapacity();
    LoadStore(ControlWord(k), 8);
    LoadStore(BodyWord(k), 8);
  }

  /** The record lies in the log at address a. */
  predicate Holds(log: seq<byte>, a: nat, r: Record)
    requires WellFormed(r)
  {
    Has(log, a, Write(r))
  }

  lemma HeaderAt(log: seq<byte>, a: nat, r: Record)
    requires WellFormed(r) && Holds(log, a, r)
    ensures a + 8 <= |log| && ReadHeader(log, a) == r.header
  {
    var x := Store(HeaderWord(r.header), 8);
    WritePieces(r);
    HasWithin(log, a, Write(r), 0, x);
    HasSlice(log, a, x);
    LoadHeader(r.header);
  }

  lemma ReadBack(log: seq<byte>, p: nat, k: KeyPointer)
    requires PointerFits(k) && Has(log, p, Chunk(k))
    ensures ReadPointer(log, p) == k
  {
    var c, b := Store(ControlWord(k), 8), Store(BodyWord(k), 8);
    HasFront(c, b, 0, c);
    HasBack(c, b);
    HasWithin(log, p, c + b, 0, c);
    HasWithin(log, p, c + b, 8, b);
    HasSlice(log, p, c);
    HasSlice(log, p + 8, b);
    LoadPointer(k);
  }

  lemma PointerAt(log: seq<byte>, a: nat, r: Record, i: nat)
    requires WellFormed(r) && Holds(log, a, r) && i < |r.pointers|
    ensures a + PtrOffset(i) + 16 <= |log| && ReadPointer(log, a + PtrOffset(i)) == r.pointers[i]
    ensures GetRecord(a + PtrOffset(i), r.pointers[i]) == a
  {
    var chunks := Chunks(r.pointers);
    WritePieces(r);
    HasWithin(log, a, Write(r), 8, Concat(chunks));
    ChunkAt(chunks, i);
    HasWithin(log, a + 8, Concat(chunks), 16 * i, chunks[i]);
    ReadBack(log, a + 8 + 16 * i, r.pointers[i]);
  }

  lemma DataAt(log: seq<byte>, a: nat, r: Record)
    requires WellFormed(r) && Holds(log, a, r)
    ensures Has(log, a + PtrOffset(|r.pointers|), r.payload + r.optional)
  {
    WritePieces(r);
    HasWithin(log, a, Write(r), PtrOffset(|r.pointers|), r.payload + r.optional);
  }

  /** A record reads back from the log: its header, so that address plus size() is where the next record
      starts; key pointer i, leading back to the record; and its payload and optional bytes. */
  lemma RecordRoundTrip(log: seq<byte>, a: nat, r: Record, i: nat)
    requires WellFormed(r) && Holds(log, a, r)
    ensures a + 8 <= |log| && ReadHeader(log, a) == r.header
    ensures Size(r.header.pointers, r.header.payload, r.header.optional) == |Write(r)|
    ensures i < |r.pointers| ==>
              && a + PtrOffset(i) + 16 <= |log| && ReadPointer(log, a + PtrOffset(i)) == r.pointers[i]
              && GetRecord(a + PtrOffset(i), r.pointers[i]) == a
    ensures Has(log, a + PtrOffset(|r.pointers|), r.payload + r.optional)
  {
    HeaderAt(log, a, r);
    if i < |r.pointers| { PointerAt(log, a, r, i); }
    DataAt(log, a, r);
  }

  // ---------------------------------------------------------------- layout of a batch record

  /** Memory as the PSFs see it. */
  type Memory = nat -> byte

  function Bytes(mem: Memory, a: nat, n: nat): (s: seq<byte>)
    ensures |s| == n
  {
    seq(n, i requires 0 <= i => mem(a + i))
  }

  /** A general PSF's result: null, or `size` bytes at `address`. */
  datatype Result = Null | Ref(psf: nat, address: nat, size: nat)

  /** The payload under the parser: where it lies and how long it is. */
  datatype Payload = Payload(data: nat, length: nat)

  /** BatchInsert's test: does the result start in the payload or right behind it? */
  predicate StartsInside(p: Payload, r: Result)
    requires r.Ref?
  {
    p.data <= r.address <= p.data + p.length
  }

  /** A result that starts inside also ends inside. */
  predicate Clean(p: Payload, r: Result) { r.Ref? && StartsInside(p, r) ==> r.address + r.size <= p.data + p.length }

  /** get_value: `size` bytes at `offset` from the start of the payload. */
  predicate Reads(data: seq<byte>, k: KeyPointer, value: seq<byte>) {
    k.General? && k.size == |value| && Has(data, k.offset, value)
  }

  lemma InPayload(mem: Memory, p: Payload, r: Result, more: seq<byte>)
    requires r.Ref? && StartsInside(p, r) && Clean(p, r)
    ensures Has(Bytes(mem, p.data, p.length) + more, r.address - p.data, Bytes(mem, r.address, r.size))
  {
  }

  /** Every key pointer reads back the bytes its PSF returned, if that result is clean. */
  ghost predicate LaidOut(mem: Memory, p: Payload, results: seq<Result>, n: nat, ks: seq<KeyPointer>, made: seq<nat>,
                          options: seq<byte>) {
    && |made| == |ks| && n <= |results|
    && (forall j | 0 <= j < |made| :: made[j] < n && results[made[j]].Ref?)
    && (forall j, m | 0 <= j < m < |made| :: made[j] < made[m])
    && (forall i | 0 <= i < n && results[i].Ref? :: i in made)
    && forall j | 0 <= j < |ks| ::
         && ks[j].General? && ks[j].index == j && ks[j].psf == results[made[j]].psf
         && ks[j].size == results[made[j]].size
         && (Clean(p, results[made[j]]) ==>
               Reads(Bytes(mem, p.data, p.length) + options, ks[j],
                     Bytes(mem, results[made[j]].address, results[made[j]].size)))
  }

  /** The bytes of the first n results that lie outside the payload. */
  function OutsideSize(p: Payload, results: seq<Result>, n: nat): nat
    requires n <= |results|
  {
    if n == 0 then 0
    else
      var r := results[n - 1];
      OutsideSize(p, results, n - 1)
      + if r.Ref? && (r.address < p.data || p.data + p.length < r.address) then r.size else 0
  }

  /** Results in the payload are referred to there; the others are copied behind it, one after the other. */
  predicate InPlace(p: Payload, results: seq<Result>, n: nat, ks: seq<KeyPointer>, made: seq<nat>, options: seq<byte>)
    requires n <= |results| && |made| == |ks|
  {
    && |options| == OutsideSize(p, results, n)
    && forall j | 0 <= j < |ks| && made[j] < n && results[made[j]].Ref? && ks[j].General? ::
         ks[j].offset == if p.data <= results[made[j]].address <= p.data + p.length
                         then results[made[j]].address - p.data
                         else p.length + OutsideSize(p, results, made[j])
  }

  lemma AddPlace(p: Payload, results: seq<Result>, n: nat, ks: seq<KeyPointer>, made: seq<nat>, options: seq<byte>,
                 more: seq<byte>, k: KeyPointer)
    requires n < |results| && results[n].Ref? && |made| == |ks| && InPlace(p, results, n, ks, made, options)
    requires (forall j | 0 <= j < |made| :: made[j] < n) && k.General?
    requires if p.data <= results[n].address <= p.data + p.length
             then k.offset == results[n].address - p.data && more == []
             else k.offset == p.length + |options| && |more| == results[n].size
    ensures InPlace(p, results, n + 1, ks + [k], made + [n], options + more)
  {
  }

  lemma SkipNull(mem: Memory, p: Payload, results: seq<Result>, n: nat, ks: seq<KeyPointer>, made: seq<nat>,
                 options: seq<byte>)
    requires n < |results| && results[n].Null? && LaidOut(mem, p, results, n, ks, made, options)
    requires InPlace(p, results, n, ks, made, options)
    ensures LaidOut(mem, p, results, n + 1, ks, made, options) && InPlace(p, results, n + 1, ks, made, options)
  {
  }

  lemma AddPointer(mem: Memory, p: Payload, results: seq<Result>, n: nat, ks: seq<KeyPointer>, made: seq<nat>,
                   options: seq<byte>, more: seq<byte>, k: KeyPointer)
    requires n < |results| && results[n].Ref? && LaidOut(mem, p, results, n, ks, made, options)
    requires k.General? && k.index == |ks| && k.psf == results[n].psf && k.size == results[n].size
    requires Clean(p, results[n]) ==>
               Reads(Bytes(mem, p.data, p.length) + (options + more), k,
                     Bytes(mem, results[n].address, results[n].size))
    ensures LaidOut(mem, p, results, n + 1, ks + [k], made + [n], options + more)
  {
    var pay, ks', made' := Bytes(mem, p.data, p.length), ks + [k], made + [n];
    forall j | 0 <= j < |ks'|
      ensures Clean(p, results[made'[j]]) ==>
                Reads(pay + (options + more), ks'[j], Bytes(mem, results[made'[j]].address, results[made'[j]].size))
    {
      if j < |ks| && Clean(p, results[made[j]]) {
        HasFront(pay + options, more, ks[j].offset, Bytes(mem, results[made[j]].address, results[made[j]].size));
        assert pay + options + more == pay + (options + more);
      }
    }
    forall i | 0 <= i < n + 1 && results[i].Ref? ensures i in made' {
      if i < n { assert i in made; } else { assert made'[|made|] == n; }
    }
  }

  lemma CopyReads(mem: Memory, p: Payload, options: seq<byte>, more: seq<byte>)
    ensures Has(Bytes(mem, p.data, p.length) + (options + more), p.length + |options|, more)
  {
    HasBack(Bytes(mem, p.data, p.length) + options, more);
    assert Bytes(mem, p.data, p.length) + options + more == Bytes(mem, p.data, p.length) + (options + more);
  }

  /** The key pointer for one result, and the bytes to copy for it. */
  method PlaceResult(mem: Memory, p: Payload, results: seq<Result>, n: nat, ks: seq<KeyPointer>, ghost made: seq<nat>,
                     options: seq<byte>) returns (k: KeyPointer, more: seq<byte>)
    requires n < |results| && results[n].Ref? && LaidOut(mem, p, results, n, ks, made, options)
    requires InPlace(p, results, n, ks, made, options)
    ensures LaidOut(mem, p, results, n + 1, ks + [k], made + [n], options + more)
    ensures InPlace(p, results, n + 1, ks + [k], made + [n], options + more)
  {
    var r := results[n];
    if p.data <= r.address <= p.data + p.length {
      k, more := General(|ks|, 0, r.psf, r.address - p.data, r.size), [];
      if Clean(p, r) { InPayload(mem, p, r, options + []); }
    } else {
      more := Bytes(mem, r.address, r.size);
      k := General(|ks|, 0, r.psf, p.length + |options|, r.size);
      CopyReads(mem, p, options, more);
    }
    AddPointer(mem, p, results, n, ks, made, options, more, k);
    AddPlace(p, results, n, ks, made, options, more, k);
  }

  /** The loop over general PSFs in BatchInsert and the copying loop of InternalInsert. `made` tells which
      result each key pointer was made for. */
  method LayOut(mem: Memory, p: Payload, results: seq<Result>)
    returns (ks: seq<KeyPointer>, made: seq<nat>, options: seq<byte>)
    ensures LaidOut(mem, p, results, |results|, ks, made, options)
    ensures InPlace(p, results, |results|, ks, made, options)
  {
    ks, made, options := [], [], [];
    var n := 0;
    while n < |results|
      invariant 0 <= n <= |results| && LaidOut(mem, p, results, n, ks, made, options)
      invariant InPlace(p, results, n, ks, made, options)
    {
      if results[n].Ref? {
        var k, more := PlaceResult(mem, p, results, n, ks, made, options);
        ks, made, options := ks + [k], made + [n], options + more;
      } else {
        SkipNull(mem, p, results, n, ks, made, options);
      }
      n := n + 1;
    }
  }

  /** What get_value finds behind key pointer k of the record at a in the log. */
  predicate ValueAt(log: seq<byte>, a: nat, h: Header, k: KeyPointer, value: seq<byte>) {
    k.General? && k.size == |value| && Has(log, a + PtrOffset(h.pointers) + k.offset, value)
  }

  /** The round trip: for a record made from PSF results that fit the field widths, key pointer j read from
      the log, wherever its prev_address points by now, gives back exactly the bytes the PSF returned,
      whether they lie in the payload or were copied. */
  lemma ValueReadsBack(log: seq<byte>, a: nat, r: Record, mem: Memory, p: Payload, results: seq<Result>,
                       ks: seq<KeyPointer>, made: seq<nat>, j: nat)
    requires WellFormed(r) && Holds(log, a, r) && r.payload == Bytes(mem, p.data, p.length)
    requires LaidOut(mem, p, results, |results|, ks, made, r.optional)
    requires j < |ks| <= |r.pointers| && Clean(p, results[made[j]])
    requires r.pointers[j] == General(j, r.pointers[j].prev, ks[j].psf, ks[j].offset, ks[j].size)
    ensures a + PtrOffset(j) + 16 <= |log| && a + 8 <= |log|
    ensures ValueAt(log, a, ReadHeader(log, a), ReadPointer(log, a + PtrOffset(j)),
                    Bytes(mem, results[made[j]].address, results[made[j]].size))
  {
    HeaderAt(log, a, r);
    PointerAt(log, a, r, j);
    ValueHeld(log, a, r, ks[j], Bytes(mem, results[made[j]].address, results[made[j]].size));
  }

  lemma ValueHeld(log: seq<byte>, a: nat, r: Record, k: KeyPointer, value: seq<byte>)
    requires WellFormed(r) && Holds(log, a, r) && Reads(r.payload + r.optional, k, value)
    ensures Has(log, a + PtrOffset(r.header.pointers) + k.offset, value)
  {
    DataAt(log, a, r);
    HasWithin(log, a + PtrOffset(|r.pointers|), r.payload + r.optional, k.offset, value);
  }

  function Other(b: byte): byte { if b == 0 then 1 else 0 }

  /** A result that starts inside the payload, or right behind it, and ends outside is not copied, so
      whatever follows the payload in the log is read instead. */
  lemma UncleanMisreads(p: Payload, r: Result, rest: seq<byte>) returns (mem: Memory)
    requires r.Ref? && StartsInside(p, r) && !Clean(p, r)
    ensures !Has(Bytes(mem, p.data, p.length) + rest, r.address - p.data, Bytes(mem, r.address, r.size))
  {
    var b: byte := if |rest| > 0 then Other(rest[0]) else 0;
    mem := x => b;
    var data, value := Bytes(mem, p.data, p.length) + rest, Bytes(mem, r.address, r.size);
    var i := p.data + p.length - r.address;
    assert value[i] == b && r.address - p.data + i == p.length;
    if |rest| > 0 { assert data[p.length] == rest[0]; }
  }

  /** So the test on the start alone is right for a result exactly if a result starting inside ends inside. */
  lemma CleanIsExact(p: Payload, r: Result)
    requires r.Ref? && StartsInside(p, r)
    ensures Clean(p, r) <==>
            forall mem: Memory, rest: seq<byte> ::
              Has(Bytes(mem, p.data, p.length) + rest, r.address - p.data, Bytes(mem, r.address, r.size))
  {
    if Clean(p, r) {
      forall mem: Memory, rest: seq<byte>
        ensures Has(Bytes(mem, p.data, p.length) + rest, r.address - p.data, Bytes(mem, r.address, r.size))
      {
        InPayload(mem, p, r, rest);
      }
    } else {
      var rest: seq<byte> := [];
      var mem := UncleanMisreads(p, r, rest);
    }
  }

  /** What lies right behind the payload in the record: the first byte copied. */
  lemma {:induction false} FirstCopied(p: Payload, results: seq<Result>, n: nat) returns (m: nat)
    requires n <= |results| && OutsideSize(p, results, n) > 0
    ensures m < n && results[m].Ref? && results[m].size > 0 && OutsideSize(p, results, m) == 0
    ensures results[m].address < p.data || p.data + p.length < results[m].address
  {
    if OutsideSize(p, results, n - 1) > 0 {
      m := FirstCopied(p, results, n - 1);
    } else {
      m := n - 1;
    }
  }

  /** It was not copied from right behind the payload in memory. */
  lemma BehindPayload(mem: Memory, p: Payload, results: seq<Result>, ks: seq<KeyPointer>, made: seq<nat>,
                      options: seq<byte>) returns (m: nat)
    requires LaidOut(mem, p, results, |results|, ks, made, options) && |options| > 0
    requires InPlace(p, results, |results|, ks, made, options)
    ensures options[0] == mem(m) && m != p.data + p.length
  {
    var i := FirstCopied(p, results, |results|);
    var j :| 0 <= j < |made| && made[j] == i;
    var value := Bytes(mem, results[i].address, results[i].size);
    assert Reads(Bytes(mem, p.data, p.length) + options, ks[j], value);
    assert value[0] == (Bytes(mem, p.data, p.length) + options)[p.length];
    m := results[i].address;
  }

  /** Whatever the other results are, LayOut's key pointer for an unclean result reads back wrong on some
      memory. */
  lemma UncleanLaidOut(p: Payload, results: seq<Result>, i: nat) returns (mem: Memory)
    requires i < |results| && results[i].Ref? && StartsInside(p, results[i]) && !Clean(p, results[i])
    ensures forall ks: seq<KeyPointer>, made: seq<nat>, options: seq<byte>, j
              | LaidOut(mem, p, results, |results|, ks, made, options) && 0 <= j < |ks| && made[j] == i
                && InPlace(p, results, |results|, ks, made, options) ::
              !Reads(Bytes(mem, p.data, p.length) + options, ks[j], Bytes(mem, results[i].address, results[i].size))
  {
    var r, end := results[i], p.data + p.length;
    mem := x => if x == end then 1 else 0;
    forall ks: seq<KeyPointer>, made: seq<nat>, options: seq<byte>, j
      | LaidOut(mem, p, results, |results|, ks, made, options) && 0 <= j < |ks| && made[j] == i
        && InPlace(p, results, |results|, ks, made, options)
      ensures !Reads(Bytes(mem, p.data, p.length) + options, ks[j], Bytes(mem, r.address, r.size))
    {
      var data, value := Bytes(mem, p.data, p.length) + options, Bytes(mem, r.address, r.size);
      assert value[end - r.address] == 1 && ks[j].offset + (end - r.address) == p.length;
      if |options| > 0 {
        var m := BehindPayload(mem, p, results, ks, made, options);
        assert data[p.length] == 0;
      }
    }
  }

  /** For instance a one-byte result in a buffer that the allocator placed right behind a one-byte payload. */
  lemma AdjacentBuffer(rest: seq<byte>) returns (mem: Memory)
    ensures !Has(Bytes(mem, 100, 1) + rest, 1, Bytes(mem, 101, 1))
  {
    mem := UncleanMisreads(Payload(100, 1), Ref(0, 101, 1), rest);
  }

  // ---------------------------------------------------------------- walking the log

  /** Records laid one after the other, each at the address its predecessor's size() leads to. */
  ghost predicate Consecutive(log: seq<byte>, a: nat, rs: seq<Record>)
    decreases rs
  {
    rs == [] || (WellFormed(rs[0]) && Holds(log, a, rs[0]) && Consecutive(log, a + |Write(rs[0])|, rs[1..]))
  }

  function Step(log: seq<byte>, a: nat): nat
    requires a + 8 <= |log|
  {
    var h := ReadHeader(log, a);
    a + Size(h.pointers, h.payload, h.optional)
  }

  /** Where n steps from a lead. */
  function Visit(log: seq<byte>, a: nat, n: nat): nat
    decreases n
  {
    if n == 0 || a + 8 > |log| then a else Visit(log, Step(log, a), n - 1)
  }

  lemma StepLands(log: seq<byte>, a: nat, r: Record)
    requires WellFormed(r) && Holds(log, a, r)
    ensures a + 8 <= |log| && Step(log, a) == a + |Write(r)|
  {
    HeaderAt(log, a, r);
  }

  /** Walking by size() visits exactly the records: n steps lead to the n-th, or behind the last. */
  lemma {:induction false} WalkBySize(log: seq<byte>, a: nat, rs: seq<Record>, n: nat)
    requires Consecutive(log, a, rs) && n <= |rs|
    ensures Consecutive(log, Visit(log, a, n), rs[n..])
    decreases n
  {
    if n > 0 {
      StepLands(log, a, rs[0]);
      WalkBySize(log, Step(log, a), rs[1..], n - 1);
      assert rs[1..][n - 1..] == rs[n..];
    }
  }
}
