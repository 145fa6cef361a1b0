/**
 * The posting record of the inverted index, as tests/tracker-indexer/tracker-index-test.c
 * reads it back from the store: a TrackerIndexElement of two guint32, the
 * document id and the "amalgamated" word that holds the score.
 *
 * The decoder helper_get_score is modelled exactly: the score is the signed
 * 16-bit value whose high byte is bits 16..23 and whose low byte is bits 8..15
 * of the amalgamated word. The encoder is not part of the shown code; the
 * model's encoder puts the score where that decoder reads it and the service
 * type in the top byte, which the decoder ignores.
 */
module IndexCodec {
  import opened Ints

  /** sizeof (TrackerIndexElement): two guint32 fields. */
  const ELEMENT_SIZE: nat := 8

  /** One on-disk posting record. */
  datatype Element = Element(id: uint32, amalgamated: uint32)

  /** One posting as the index reasons about it: document, service type and score. */
  datatype Posting = Posting(id: uint32, serviceType: uint8, score: int16)

  lemma DivMod256(x: nat)
    ensures (x / 0x100) % 0x1_0000 == ((x / 0x1_0000) % 0x100) * 0x100 + (x / 0x100) % 0x100
  {
    var y := x / 0x100;
    var q, r := y / 0x100, y % 0x100;
    assert x / 0x1_0000 == q;
    var q2, r2 := q / 0x100, q % 0x100;
    assert y == 0x1_0000 * q2 + (0x100 * r2 + r);
    assert 0 <= 0x100 * r2 + r < 0x1_0000;
  }

  /**
   * helper_get_score: bytes a[0] = bits 16..23 and a[1] = bits 8..15, then
   * `(gint16) (a[0] << 8) | a[1]`. The cast binds before `|`; the low byte of
   * the cast value is zero, so the `|` adds a[1], and the sum is already a
   * gint16. The result is the two's-complement reading of bits 8..23.
   */
  function GetScore(e: Element): (r: int16)
    ensures r == ToInt16(e.amalgamated / 0x100)
  {
    var a0 := (e.amalgamated / 0x1_0000) % 0x100;
    var a1 := (e.amalgamated / 0x100) % 0x100;
    DivMod256(e.amalgamated);
    ToInt16(a0 * 0x100) + a1
  }

  /** The score only depends on bits 8..23: the outer bytes are ignored. */
  lemma {:induction false} GetScoreIgnoresOuterBytes(e: Element, high: uint8, low: uint8)
    ensures GetScore(Element(e.id, (high as int) * 0x100_0000 + (e.amalgamated % 0x100_0000) / 0x100 * 0x100 + low as int))
         == GetScore(e)
  {
    var x := e.amalgamated;
    var m := (x % 0x100_0000) / 0x100;
    assert 0 <= m < 0x1_0000;
    var y := (high as int) * 0x100_0000 + m * 0x100 + low as int;
    ShiftDown((high as int) * 0x1_0000 + m, low as int);
    assert y / 0x100 == (high as int) * 0x1_0000 + m;
    assert x % 0x100_0000 == m * 0x100 + x % 0x100;
    assert x == (x / 0x100_0000) * 0x100_0000 + x % 0x100_0000;
    ShiftDown((x / 0x100_0000) * 0x1_0000 + m, x % 0x100);
    assert x / 0x100 == (x / 0x100_0000) * 0x1_0000 + m;
    HighBitsDropped(high as int, m);
    HighBitsDropped(x / 0x100_0000, m);
  }

  lemma ShiftDown(a: int, r: int)
    requires 0 <= r < 0x100
    ensures (a * 0x100 + r) / 0x100 == a
  {
  }

  lemma HighBitsDropped(h: int, m: int)
    requires 0 <= m < 0x1_0000
    ensures ToInt16(h * 0x1_0000 + m) == ToInt16(m)
  {
    assert (h * 0x1_0000 + m) % 0x1_0000 == m;
  }

  /** The amalgamated word of a score and a service type (bits 24..31 type, 8..23 score, 0..7 zero). */
  function Amalgamate(serviceType: uint8, score: int16): uint32 {
    (serviceType as int) * 0x100_0000 + (score % 0x1_0000) * 0x100
  }

  function Encode(p: Posting): Element {
    Element(p.id, Amalgamate(p.serviceType, p.score))
  }

  function Decode(e: Element): Posting {
    Posting(e.id, (e.amalgamated / 0x100_0000) as uint8, GetScore(e))
  }

  /** Every posting survives encoding: in particular helper_get_score reads back the score. */
  lemma DecodeEncode(p: Posting)
    ensures Decode(Encode(p)) == p
    ensures GetScore(Encode(p)) == p.score
  {
    var x := Amalgamate(p.serviceType, p.score);
    var s := p.score % 0x1_0000;
    assert x / 0x100 == (p.serviceType as int) * 0x1_0000 + s;
    assert (x / 0x100) % 0x1_0000 == s;
    assert x / 0x100_0000 == p.serviceType as int;
  }

  /** A record the encoder can produce (its low byte is zero) decodes and re-encodes to itself. */
  lemma EncodeDecode(e: Element)
    requires e.amalgamated % 0x100 == 0
    ensures Encode(Decode(e)) == e
  {
    var x := e.amalgamated;
    var t := x / 0x100_0000;
    var m := (x / 0x100) % 0x1_0000;
    assert x == t * 0x100_0000 + m * 0x100;
    assert GetScore(e) % 0x1_0000 == m;
  }

  function EncodeList(l: seq<Posting>): (r: seq<Element>)
    ensures |r| == |l|
  {
    seq(|l|, i requires 0 <= i < |l| => Encode(l[i]))
  }

  function DecodeList(l: seq<Element>): (r: seq<Posting>)
    ensures |r| == |l|
  {
    seq(|l|, i requires 0 <= i < |l| => Decode(l[i]))
  }

  lemma DecodeEncodeList(l: seq<Posting>)
    ensures DecodeList(EncodeList(l)) == l
  {
    forall i | 0 <= i < |l| ensures DecodeList(EncodeList(l))[i] == l[i] {
      DecodeEncode(l[i]);
    }
  }

  /** Score accumulation, saturating at the gint16 bounds. */
  function SaturatingAdd(score: int16, delta: int): (r: int16)
    ensures -0x8000 <= score as int + delta < 0x8000 ==> r == score as int + delta
    ensures score as int + delta >= 0x8000 ==> r == 0x7FFF
    ensures score as int + delta < -0x8000 ==> r == -0x8000
  {
    var sum := score as int + delta;
    if sum > 0x7FFF then 0x7FFF else if sum < -0x8000 then -0x8000 else sum
  }
}
