/** Scorpion documents (`crates/scorpion-protocol/src/document.rs`): binary blocks,
    one after another, each telling its own length. */
module ScorpionDocument {
  import opened Text
  import opened Octets

  datatype BlockType =
    | Paragraph
    | Heading(level: Octet)
    | Link
    | InputLink
    | InteractiveLink
    | AlternateService
    | Blockquote
    | Preformatted
    | Metadata
    | UnknownType(low: Octet)

  datatype Encoding =
    | Tron8
    | Pc
    | Iso2022
    | Tron8Rtl
    | Iso2022Rtl
    | UnknownEncoding(high: Octet)

  datatype Block = Block(blockType: BlockType, encoding: Encoding, attribute: Blob, body: Blob)

  datatype DocumentError = Truncated | AttributeTooLong | BodyTooLong

  const MAX_ATTRIBUTE: nat := 0xFFFF
  const MAX_BODY: nat := 0xFF_FFFF

  // ------------------------------------------------------------- the first octet

  function TypeValue(t: BlockType): (v: Octet)
    ensures v < 16
  {
    match t
    case Paragraph => 0x00
    case Heading(level) => if level < 1 then 1 else if level > 6 then 6 else level
    case Link => 0x08
    case InputLink => 0x09
    case InteractiveLink => 0x0A
    case AlternateService => 0x0B
    case Blockquote => 0x0C
    case Preformatted => 0x0D
    case Metadata => 0x0F
    case UnknownType(low) => low % 16
  }

  function TypeOf(v: Octet): BlockType {
    if v == 0x00 then Paragraph
    else if 0x01 <= v <= 0x06 then Heading(v)
    else if v == 0x08 then Link
    else if v == 0x09 then InputLink
    else if v == 0x0A then InteractiveLink
    else if v == 0x0B then AlternateService
    else if v == 0x0C then Blockquote
    else if v == 0x0D then Preformatted
    else if v == 0x0F then Metadata
    else UnknownType(v)
  }

  function EncodingValue(e: Encoding): (v: Octet)
    ensures v % 16 == 0
  {
    match e
    case Tron8 => 0x00
    case Pc => 0x10
    case Iso2022 => 0x20
    case Tron8Rtl => 0x80
    case Iso2022Rtl => 0xA0
    case UnknownEncoding(high) => high - high % 16
  }

  function EncodingOf(v: Octet): Encoding {
    if v == 0x00 then Tron8
    else if v == 0x10 then Pc
    else if v == 0x20 then Iso2022
    else if v == 0x80 then Tron8Rtl
    else if v == 0xA0 then Iso2022Rtl
    else UnknownEncoding(v)
  }

  /** Encoding above, type below; the halves are disjoint, so their OR is their sum. */
  function Tag(t: BlockType, e: Encoding): Octet {
    EncodingValue(e) + TypeValue(t)
  }

  /** The one way of writing what an octet's halves mean. */
  predicate CanonicalType(t: BlockType) {
    match t
    case Heading(level) => 1 <= level <= 6
    case UnknownType(low) => low == 0x07 || low == 0x0E
    case _ => true
  }

  predicate CanonicalEncoding(e: Encoding) {
    e.UnknownEncoding? ==> e.high % 16 == 0 && e.high !in {0x00, 0x10, 0x20, 0x80, 0xA0}
  }

  lemma TypeRoundTrip(t: BlockType)
    ensures CanonicalType(TypeOf(TypeValue(t)))
    ensures TypeOf(TypeValue(t)) == t <==> CanonicalType(t)
    ensures TypeValue(TypeOf(TypeValue(t))) == TypeValue(t)
  {
  }

  lemma EncodingRoundTrip(e: Encoding)
    ensures CanonicalEncoding(EncodingOf(EncodingValue(e)))
    ensures EncodingOf(EncodingValue(e)) == e <==> CanonicalEncoding(e)
    ensures EncodingValue(EncodingOf(EncodingValue(e))) == EncodingValue(e)
  {
  }

  lemma TagHalves(t: BlockType, e: Encoding)
    ensures Tag(t, e) % 16 == TypeValue(t) && Tag(t, e) - Tag(t, e) % 16 == EncodingValue(e)
  {
  }

  lemma TagOfHalves(tag: Octet)
    ensures var t, e := TypeOf(tag % 16), EncodingOf(tag - tag % 16);
            Tag(t, e) == tag && CanonicalType(t) && CanonicalEncoding(e)
  {
    var low := tag % 16;
    assert (tag - low) % 16 == 0;
  }

  // -------------------------------------------------------------------- encoding

  /** A block within its length fields, laid out. */
  function Laid(b: Block): (out: Blob)
    requires Fits(b)
    ensures |out| == 6 + |b.attribute| + |b.body|
  {
    [Tag(b.blockType, b.encoding)] + ToBe(|b.attribute|, 2) + b.attribute + ToBe(|b.body|, 3) + b.body
  }

  predicate Fits(b: Block) {
    |b.attribute| <= MAX_ATTRIBUTE && |b.body| <= MAX_BODY
  }

  function LengthError(b: Block): DocumentError {
    if |b.attribute| > MAX_ATTRIBUTE then AttributeTooLong else BodyTooLong
  }

  predicate AllFit(blocks: seq<Block>) {
    forall b :: b in blocks ==> Fits(b)
  }

  function LaidOut(blocks: seq<Block>): Blob
    requires AllFit(blocks)
  {
    if blocks == [] then [] else Laid(blocks[0]) + LaidOut(blocks[1..])
  }

  /** The octets of a document, or the first block's error that has one. */
  function Encoded(blocks: seq<Block>): (r: Result<Blob, DocumentError>)
    ensures r.Ok? <==> AllFit(blocks)
    ensures r.Ok? ==> r.value == LaidOut(blocks)
  {
    if blocks == [] then Ok([])
    else if !Fits(blocks[0]) then Err(LengthError(blocks[0]))
    else
      match Encoded(blocks[1..])
      case Err(e) => Err(e)
      case Ok(rest) => Ok(Laid(blocks[0]) + rest)
  }

  /** Appends one block's octets. */
  method EncodeTo(b: Block, out: Blob) returns (r: Result<(), DocumentError>, out': Blob)
    ensures if Fits(b) then r == Ok(()) && out' == out + Laid(b) else r == Err(LengthError(b)) && out' == out
  {
    if |b.attribute| > MAX_ATTRIBUTE {
      return Err(AttributeTooLong), out;
    }
    if |b.body| > MAX_BODY {
      return Err(BodyTooLong), out;
    }
    out' := out + [Tag(b.blockType, b.encoding)];
    out' := out' + ToBe(|b.attribute|, 2);
    out' := out' + b.attribute;
    out' := out' + ToBe(|b.body|, 3);
    out' := out' + b.body;
    r := Ok(());
  }

  method Encode(blocks: seq<Block>) returns (r: Result<Blob, DocumentError>)
    ensures r == Encoded(blocks)
  {
    hide Laid;
    var out := [];
    assert blocks[0..] == blocks;
    PrependedNothing(Encoded(blocks));
    for i := 0 to |blocks|
      invariant Encoded(blocks) == Prepended(out, Encoded(blocks[i..]))
    {
      assert blocks[i..][1..] == blocks[i + 1..];
      ghost var before := out;
      var step;
      step, out := EncodeTo(blocks[i], out);
      if step.Err? {
        return Err(step.error);
      }
      PrependedTwice(before, Laid(blocks[i]), Encoded(blocks[i + 1..]));
    }
    assert out + [] == out;
    return Ok(out);
  }

  function Prepended(head: Blob, r: Result<Blob, DocumentError>): Result<Blob, DocumentError> {
    match r
    case Err(e) => Err(e)
    case Ok(rest) => Ok(head + rest)
  }

  lemma PrependedNothing(r: Result<Blob, DocumentError>)
    ensures Prepended([], r) == r
  {
    if r.Ok? {
      assert [] + r.value == r.value;
    }
  }

  lemma PrependedTwice(a: Blob, b: Blob, r: Result<Blob, DocumentError>)
    ensures Prepended(a, Prepended(b, r)) == Prepended(a + b, r)
  {
    if r.Ok? {
      assert a + (b + r.value) == a + b + r.value;
    }
  }

  // --------------------------------------------------------------------- reading

  /** The next `count` octets; when there are fewer, nothing is left to read. */
  function Taken(rest: Blob, count: nat): (Result<Blob, DocumentError>, Blob) {
    if |rest| < count then (Err(Truncated), []) else (Ok(rest[..count]), rest[count..])
  }

  /** One block off the front: its lengths, and by them its parts. */
  function ReadBlock(rest: Blob): (r: (Result<Block, DocumentError>, Blob))
    ensures rest != [] ==> |r.1| < |rest|
    ensures r.0.Err? ==> r.0.error == Truncated && r.1 == []
  {
    var (tag, afterTag) := Taken(rest, 1);
    if tag.Err? then (Err(tag.error), afterTag)
    else
      var (alen, afterAlen) := Taken(afterTag, 2);
      if alen.Err? then (Err(alen.error), afterAlen)
      else
        var (attribute, afterAttribute) := Taken(afterAlen, FromBe(alen.value));
        if attribute.Err? then (Err(attribute.error), afterAttribute)
        else
          var (blen, afterBlen) := Taken(afterAttribute, 3);
          if blen.Err? then (Err(blen.error), afterBlen)
          else
            var (body, afterBody) := Taken(afterBlen, FromBe(blen.value));
            if body.Err? then (Err(body.error), afterBody)
            else (Ok(BlockOf(tag.value[0], attribute.value, body.value)), afterBody)
  }

  function BlockOf(tag: Octet, attribute: Blob, body: Blob): Block {
    Block(TypeOf(tag % 16), EncodingOf(tag - tag % 16), attribute, body)
  }

  /** All that the reader yields. */
  function Items(rest: Blob): seq<Result<Block, DocumentError>>
    decreases |rest|
  {
    if rest == [] then [] else [ReadBlock(rest).0] + Items(ReadBlock(rest).1)
  }

  /** The blocks, or the first error. */
  function Parsed(rest: Blob): Result<seq<Block>, DocumentError>
    decreases |rest|
  {
    if rest == [] then Ok([])
    else
      var (item, after) := ReadBlock(rest);
      if item.Err? then Err(item.error)
      else
        match Parsed(after)
        case Err(e) => Err(e)
        case Ok(blocks) => Ok([item.value] + blocks)
  }

  class Blocks {
    var rest: Blob

    constructor (bytes: Blob)
      ensures rest == bytes
    {
      rest := bytes;
    }

    method Take(count: nat) returns (r: Result<Blob, DocumentError>)
      modifies this
      ensures (r, rest) == Taken(old(rest), count)
    {
      if |rest| < count {
        rest := [];
        return Err(Truncated);
      }
      var head := rest[..count];
      rest := rest[count..];
      return Ok(head);
    }

    method Read() returns (r: Result<Block, DocumentError>)
      modifies this
      ensures (r, rest) == ReadBlock(old(rest))
    {
      hide FromBe;
      var tag := Take(1);
      if tag.Err? { return Err(tag.error); }
      var attributeLength := Take(2);
      if attributeLength.Err? { return Err(attributeLength.error); }
      var attribute := Take(FromBe(attributeLength.value));
      if attribute.Err? { return Err(attribute.error); }
      var bodyLength := Take(3);
      if bodyLength.Err? { return Err(bodyLength.error); }
      var body := Take(FromBe(bodyLength.value));
      if body.Err? { return Err(body.error); }
      return Ok(BlockOf(tag.value[0], attribute.value, body.value));
    }

    /** The iterator's step: `None` once nothing is left. */
    method Next() returns (item: Option<Result<Block, DocumentError>>)
      modifies this
      ensures if old(rest) == [] then item.None? && rest == []
              else item == Some(ReadBlock(old(rest)).0) && rest == ReadBlock(old(rest)).1
      ensures item.Some? ==> |rest| < |old(rest)|
    {
      if rest == [] {
        return None;
      }
      var block := Read();
      return Some(block);
    }
  }

  /** Collects the reader's blocks up to the first error. */
  method Parse(bytes: Blob) returns (r: Result<seq<Block>, DocumentError>)
    ensures r == Parsed(bytes)
  {
    var blocks := new Blocks(bytes);
    var found := [];
    GatheredNothing(Parsed(bytes));
    while true
      invariant Parsed(bytes) == Gathered(found, Parsed(blocks.rest))
      decreases |blocks.rest|
    {
      var item := blocks.Next();
      match item {
        case None =>
          assert found + [] == found;
          return Ok(found);
        case Some(Err(e)) =>
          return Err(e);
        case Some(Ok(block)) =>
          GatheredOne(found, block, Parsed(blocks.rest));
          found := found + [block];
      }
    }
  }

  function Gathered(found: seq<Block>, r: Result<seq<Block>, DocumentError>): Result<seq<Block>, DocumentError> {
    match r
    case Err(e) => Err(e)
    case Ok(blocks) => Ok(found + blocks)
  }

  lemma GatheredNothing(r: Result<seq<Block>, DocumentError>)
    ensures Gathered([], r) == r
  {
    if r.Ok? { assert [] + r.value == r.value; }
  }

  lemma GatheredOne(found: seq<Block>, b: Block, r: Result<seq<Block>, DocumentError>)
    ensures Gathered(found, Gathered([b], r)) == Gathered(found + [b], r)
  {
    if r.Ok? { assert found + ([b] + r.value) == found + [b] + r.value; }
  }

  // ------------------------------------------------------------------ round trips

  /** A block as it reads back: clamped and masked as its tag is. */
  function Canonical(b: Block): Block {
    Block(TypeOf(TypeValue(b.blockType)), EncodingOf(EncodingValue(b.encoding)), b.attribute, b.body)
  }

  predicate IsCanonical(b: Block) {
    CanonicalType(b.blockType) && CanonicalEncoding(b.encoding)
  }

  function Canonicals(blocks: seq<Block>): seq<Block> {
    if blocks == [] then [] else [Canonical(blocks[0])] + Canonicals(blocks[1..])
  }

  lemma CanonicalIsItself(b: Block)
    ensures Canonical(b) == b <==> IsCanonical(b)
    ensures IsCanonical(Canonical(b))
  {
    TypeRoundTrip(b.blockType);
    EncodingRoundTrip(b.encoding);
  }

  lemma TakenIs(head: Blob, tail: Blob)
    ensures Taken(head + tail, |head|) == (Ok(head), tail)
  {
    assert (head + tail)[..|head|] == head && (head + tail)[|head|..] == tail;
  }

  /** A block laid out reads back, whatever follows it, and nothing more is taken. */
  lemma ReadBlockOfLaid(b: Block, tail: Blob)
    requires Fits(b)
    ensures ReadBlock(Laid(b) + tail) == (Ok(Canonical(b)), tail)
  {
    hide ToBe, FromBe, Taken, TypeOf, EncodingOf, TypeValue, EncodingValue, Tag;
    var tag := [Tag(b.blockType, b.encoding)];
    var alen, blen := ToBe(|b.attribute|, 2), ToBe(|b.body|, 3);
    PowersOf256();
    FromBeToBe(|b.attribute|, 2);
    FromBeToBe(|b.body|, 3);
    TagHalves(b.blockType, b.encoding);
    assert Laid(b) + tail == tag + (alen + (b.attribute + (blen + (b.body + tail))));
    TakenIs(tag, alen + (b.attribute + (blen + (b.body + tail))));
    TakenIs(alen, b.attribute + (blen + (b.body + tail)));
    TakenIs(b.attribute, blen + (b.body + tail));
    TakenIs(blen, b.body + tail);
    TakenIs(b.body, tail);
  }

  lemma TakenBack(rest: Blob, count: nat)
    requires Taken(rest, count).0.Ok?
    ensures |Taken(rest, count).0.value| == count && rest == Taken(rest, count).0.value + Taken(rest, count).1
  {
  }

  /** A block that reads was laid out: it fits, it is canonical, and its octets are
      the ones read. */
  lemma ReadBlockIsLaid(rest: Blob)
    requires ReadBlock(rest).0.Ok?
    ensures var (item, after) := ReadBlock(rest);
            Fits(item.value) && IsCanonical(item.value) && rest == Laid(item.value) + after
  {
    hide ToBe, FromBe, Taken, TypeOf, EncodingOf, TypeValue, EncodingValue, Tag, CanonicalType, CanonicalEncoding;
    var (tag, afterTag) := Taken(rest, 1);
    TakenBack(rest, 1);
    var (alen, afterAlen) := Taken(afterTag, 2);
    TakenBack(afterTag, 2);
    var (attribute, afterAttribute) := Taken(afterAlen, FromBe(alen.value));
    TakenBack(afterAlen, FromBe(alen.value));
    var (blen, afterBlen) := Taken(afterAttribute, 3);
    TakenBack(afterAttribute, 3);
    TakenBack(afterBlen, FromBe(blen.value));
    PowersOf256();
    ToBeFromBe(alen.value);
    ToBeFromBe(blen.value);
    TagOfHalves(tag.value[0]);
    assert tag.value == [tag.value[0]];
  }

  /** A proper, non-empty part of a block is truncated, and ends the reading. */
  lemma PartOfBlockIsTruncated(b: Block, k: nat)
    requires Fits(b) && 0 < k < |Laid(b)|
    ensures ReadBlock(Laid(b)[..k]) == (Err(Truncated), [])
  {
    hide Laid, ReadBlock;
    var part, cut := Laid(b)[..k], Laid(b)[k..];
    if ReadBlock(part).0.Ok? {
      var (item, after) := ReadBlock(part);
      ReadBlockIsLaid(part);
      assert Laid(b) + [] == part + cut == Laid(item.value) + (after + cut);
      ReadBlockOfLaid(b, []);
      ReadBlockOfLaid(item.value, after + cut);
      assert false;
    }
  }

  /** What encoding writes, parsing reads back in its canonical form; it reads back
      as it was if and only if every block was canonical. */
  lemma {:induction false} ParseOfEncode(blocks: seq<Block>)
    requires AllFit(blocks)
    ensures Parsed(LaidOut(blocks)) == Ok(Canonicals(blocks))
    ensures Parsed(LaidOut(blocks)) == Ok(blocks) <==> forall b :: b in blocks ==> IsCanonical(b)
  {
    hide Laid, ReadBlock, Canonical, IsCanonical, Fits;
    if blocks != [] {
      assert blocks[0] in blocks;
      ParseOfEncode(blocks[1..]);
      ReadBlockOfLaid(blocks[0], LaidOut(blocks[1..]));
      CanonicalIsItself(blocks[0]);
      assert blocks == [blocks[0]] + blocks[1..];
    }
  }

  /** Whatever parses, encodes back to the very octets it was parsed from, and is
      canonical throughout. */
  lemma {:induction false} EncodeOfParse(bytes: Blob)
    requires Parsed(bytes).Ok?
    ensures var blocks := Parsed(bytes).value;
            && AllFit(blocks) && LaidOut(blocks) == bytes && Encoded(blocks) == Ok(bytes)
            && forall b :: b in blocks ==> IsCanonical(b)
    decreases |bytes|
  {
    hide Laid, ReadBlock, IsCanonical, Fits;
    if bytes != [] {
      var (item, after) := ReadBlock(bytes);
      ReadBlockIsLaid(bytes);
      EncodeOfParse(after);
      var blocks := Parsed(bytes).value;
      assert blocks[1..] == Parsed(after).value;
    }
  }

  // ------------------------------------------------------------- self-delimiting

  function Yielded(blocks: seq<Block>): seq<Result<Block, DocumentError>> {
    if blocks == [] then [] else [Ok(Canonical(blocks[0]))] + Yielded(blocks[1..])
  }

  /** How many octets the first `m` blocks take. */
  function Extent(blocks: seq<Block>, m: nat): nat
    requires m <= |blocks|
  {
    if m == 0 then 0 else 6 + |blocks[0].attribute| + |blocks[0].body| + Extent(blocks[1..], m - 1)
  }

  /** On any prefix of a document the reader yields exactly the blocks that are whole
      in it, then one `Truncated` if and only if the cut falls inside a block. */
  lemma {:induction false} PrefixYieldsWholeBlocks(blocks: seq<Block>, k: nat, m: nat)
    requires AllFit(blocks) && k <= |LaidOut(blocks)|
    requires m <= |blocks| && Extent(blocks, m) <= k && (m < |blocks| ==> k < Extent(blocks, m + 1))
    ensures Items(LaidOut(blocks)[..k]) == Yielded(blocks[..m]) + if k > Extent(blocks, m) then [Err(Truncated)] else []
    decreases m
  {
    hide Laid, ReadBlock, Canonical;
    var part := LaidOut(blocks)[..k];
    if m > 0 {
      var length := |Laid(blocks[0])|;
      var rest := LaidOut(blocks[1..])[..k - length];
      assert part == Laid(blocks[0]) + rest;
      ReadBlockOfLaid(blocks[0], rest);
      PrefixYieldsWholeBlocks(blocks[1..], k - length, m - 1);
      assert blocks[..m][1..] == blocks[1..][..m - 1];
    } else if k > 0 {
      assert part == Laid(blocks[0])[..k];
      PartOfBlockIsTruncated(blocks[0], k);
      assert Items([]) == [];
    }
  }

  /** How many of the blocks are whole in the first `k` octets. */
  function WholeBlocks(blocks: seq<Block>, k: nat): nat {
    if blocks == [] || k < Extent(blocks, 1) then 0 else 1 + WholeBlocks(blocks[1..], k - Extent(blocks, 1))
  }

  lemma {:induction false} WholeBlocksFit(blocks: seq<Block>, k: nat)
    ensures var m := WholeBlocks(blocks, k);
            m <= |blocks| && Extent(blocks, m) <= k && (m < |blocks| ==> k < Extent(blocks, m + 1))
  {
    if blocks != [] && k >= Extent(blocks, 1) {
      WholeBlocksFit(blocks[1..], k - Extent(blocks, 1));
      assert Extent(blocks[1..], 0) == 0;
      assert Extent(blocks, 1) == 6 + |blocks[0].attribute| + |blocks[0].body|;
    }
  }

  /** Cut a document anywhere: the reader yields exactly the blocks whole before the
      cut, then one `Truncated` if and only if the cut falls inside a block. */
  lemma AnyPrefix(blocks: seq<Block>, k: nat)
    requires AllFit(blocks) && k <= |LaidOut(blocks)|
    ensures var m := WholeBlocks(blocks, k);
            && m <= |blocks| && Extent(blocks, m) <= k && (m < |blocks| ==> k < Extent(blocks, m + 1))
            && Items(LaidOut(blocks)[..k]) == Yielded(blocks[..m]) + if k > Extent(blocks, m) then [Err(Truncated)] else []
  {
    hide Items, LaidOut, WholeBlocks;
    WholeBlocksFit(blocks, k);
    PrefixYieldsWholeBlocks(blocks, k, WholeBlocks(blocks, k));
  }

  /** On any octets at all the reader ends, every item but the last is a block, and
      an error is `Truncated` and comes last. */
  lemma {:induction false} ItemsShape(bytes: Blob)
    ensures var items := Items(bytes);
            && |items| <= |bytes|
            && forall i :: 0 <= i < |items| && items[i].Err? ==> items[i] == Err(Truncated) && i == |items| - 1
    decreases |bytes|
  {
    hide ReadBlock;
    if bytes != [] {
      ItemsShape(ReadBlock(bytes).1);
      assert ReadBlock(bytes).0.Err? ==> Items(ReadBlock(bytes).1) == [];
    }
  }

  /** Collecting the items: all the blocks, or the error that ended them. */
  lemma {:induction false} ParsedIsItems(bytes: Blob)
    ensures match Parsed(bytes)
            case Ok(blocks) => Items(bytes) == seq(|blocks|, i requires 0 <= i < |blocks| => Ok(blocks[i]))
            case Err(e) => e == Truncated && Items(bytes) != [] && Items(bytes)[|Items(bytes)| - 1] == Err(Truncated)
    decreases |bytes|
  {
    hide ReadBlock;
    if bytes != [] {
      ParsedIsItems(ReadBlock(bytes).1);
    }
  }

  /** What cannot be encoded, and why: the first block that does not fit decides, by its
      attribute first, over 65535 octets, and then by its body, over 16777215. */
  lemma {:induction false} EncodeRefuses(before: seq<Block>, b: Block, after: seq<Block>)
    requires forall x :: x in before ==> |x.attribute| <= 65_535 && |x.body| <= 16_777_215
    ensures |b.attribute| > 65_535 ==> Encoded(before + [b] + after) == Err(AttributeTooLong)
    ensures |b.attribute| <= 65_535 && |b.body| > 16_777_215 ==> Encoded(before + [b] + after) == Err(BodyTooLong)
  {
    var blocks := before + [b] + after;
    if before != [] {
      EncodeRefuses(before[1..], b, after);
      assert blocks[1..] == before[1..] + [b] + after;
      assert before[0] in before && blocks[0] == before[0];
    } else {
      assert blocks[0] == b;
    }
  }
}
