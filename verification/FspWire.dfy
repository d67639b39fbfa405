/** FSP packets and directory blocks (`crates/fsp-protocol/src/wire.rs`). */
module FspWire {
  import opened Text
  import opened Decimal
  import opened Octets

  const HEADER_LEN: nat := 12
  const MAX_PAYLOAD: nat := 1024

  const ERR: Octet := 0x40
  const GET_FILE: Octet := 0x42

  datatype Direction = ServerToClient | ClientToServer

  datatype Header = Header(command: Octet, key: U16, serial: U16, dataLength: U16, filePosition: U32)

  datatype Packet = Packet(header: Header, data: Blob, extra: Blob)

  datatype DecodeError =
    | TooShort
    | LengthOverrun(claimed: nat, available: nat)
    | BadChecksum(expected: Octet, found: Octet)

  // ------------------------------------------------------------------ checksum

  /** The sum of the first `n` octets, the checksum field counting as zero. */
  function Sum(packet: Blob, n: nat): nat
    requires n <= |packet|
  {
    if n == 0 then 0 else Sum(packet, n - 1) + if n - 1 == 1 then 0 else packet[n - 1] as nat
  }

  function Initial(packet: Blob, direction: Direction): nat {
    if direction.ServerToClient? then 0 else |packet| % U32_LIMIT
  }

  function Fold(sum: nat): Octet {
    ((sum + sum / 256) % 256) as Octet
  }

  /** The checksum a packet should carry; the running sum is 32 bits wide. */
  function ChecksumOf(packet: Blob, direction: Direction): Octet {
    Fold((Initial(packet, direction) + Sum(packet, |packet|)) % U32_LIMIT)
  }

  lemma WrappedAdd(x: nat, y: nat)
    ensures (x % U32_LIMIT + y) % U32_LIMIT == (x + y) % U32_LIMIT
  {
  }

  method Checksum(packet: Blob, direction: Direction) returns (checksum: Octet)
    ensures checksum == ChecksumOf(packet, direction)
  {
    hide Fold;
    var sum: nat := if direction.ServerToClient? then 0 else |packet| % U32_LIMIT;
    for index := 0 to |packet|
      invariant sum == (Initial(packet, direction) + Sum(packet, index)) % U32_LIMIT
    {
      WrappedAdd(Initial(packet, direction) + Sum(packet, index), packet[index] as nat);
      if index != 1 {
        sum := (sum + packet[index] as nat) % U32_LIMIT;
      }
    }
    checksum := Fold(sum);
  }

  // -------------------------------------------------------------------- packets

  /** The octets of a packet with the checksum field given. */
  function Laid(p: Packet, checksum: Octet): (b: Blob)
    ensures |b| == HEADER_LEN + |p.data| + |p.extra| && b[1] == checksum
  {
    [p.header.command, checksum] + ToBe(p.header.key, 2) + ToBe(p.header.serial, 2)
    + ToBe(p.header.dataLength, 2) + ToBe(p.header.filePosition, 4) + p.data + p.extra
  }

  function Encode(p: Packet, direction: Direction): (b: Blob)
    ensures |b| == HEADER_LEN + |p.data| + |p.extra|
  {
    Laid(p, ChecksumOf(Laid(p, 0), direction))
  }

  /** Writes the packet with a zero checksum, then fills the checksum in. */
  method WritePacket(p: Packet, direction: Direction) returns (out: Blob)
    ensures out == Encode(p, direction)
  {
    out := [p.header.command];
    out := out + [0];
    out := out + ToBe(p.header.key, 2);
    out := out + ToBe(p.header.serial, 2);
    out := out + ToBe(p.header.dataLength, 2);
    out := out + ToBe(p.header.filePosition, 4);
    out := out + p.data;
    out := out + p.extra;
    assert out == Laid(p, 0);
    var checksum := Checksum(out, direction);
    LaidField(p, 0, checksum);
    out := out[1 := checksum];
  }

  lemma LaidField(p: Packet, before: Octet, after: Octet)
    ensures Laid(p, before)[1 := after] == Laid(p, after)
  {
  }

  function HeaderOf(b: Blob): Header
    requires |b| >= HEADER_LEN
  {
    PowersOf256();
    ToBeFromBe(b[2..4]);
    ToBeFromBe(b[4..6]);
    ToBeFromBe(b[6..8]);
    ToBeFromBe(b[8..12]);
    Header(b[0], FromBe(b[2..4]), FromBe(b[4..6]), FromBe(b[6..8]), FromBe(b[8..12]))
  }

  function Decode(b: Blob, direction: Direction): Result<Packet, DecodeError> {
    if |b| < HEADER_LEN then Err(TooShort)
    else
      var expected := ChecksumOf(b, direction);
      if b[1] != expected then Err(BadChecksum(expected, b[1]))
      else
        var header := HeaderOf(b);
        var available := |b| - HEADER_LEN;
        if header.dataLength > available then Err(LengthOverrun(header.dataLength, available))
        else Ok(Packet(header, b[HEADER_LEN..HEADER_LEN + header.dataLength], b[HEADER_LEN + header.dataLength..]))
  }

  /** The checksum of a packet does not depend on its checksum field. */
  lemma {:induction false} SumSkipsField(b: Blob, c: Octet, n: nat)
    requires |b| >= 2 && n <= |b|
    ensures Sum(b[1 := c], n) == Sum(b, n)
  {
    if n > 0 { SumSkipsField(b, c, n - 1); }
  }

  lemma EncodedChecksum(p: Packet, direction: Direction)
    ensures var b := Encode(p, direction);
            b[1] == ChecksumOf(b, direction)
  {
    var c := ChecksumOf(Laid(p, 0), direction);
    LaidField(p, 0, c);
    SumSkipsField(Laid(p, 0), c, |Laid(p, 0)|);
  }

  lemma HeaderOfLaid(p: Packet, c: Octet)
    ensures HeaderOf(Laid(p, c)) == p.header && Laid(p, c)[HEADER_LEN..] == p.data + p.extra
  {
    var b := Laid(p, c);
    var h := p.header;
    PowersOf256();
    FromBeToBe(h.key, 2);
    FromBeToBe(h.serial, 2);
    FromBeToBe(h.dataLength, 2);
    FromBeToBe(h.filePosition, 4);
    assert b[2..4] == ToBe(h.key, 2);
    assert b[4..6] == ToBe(h.serial, 2);
    assert b[6..8] == ToBe(h.dataLength, 2);
    assert b[8..12] == ToBe(h.filePosition, 4);
  }

  /** The twelve header octets: numbers high octet first, the checksum second. */
  lemma WireLayout(p: Packet, direction: Direction)
    ensures var b := Encode(p, direction);
            var h := p.header;
            && |b| == 12 + |p.data| + |p.extra|
            && b[0] == h.command
            && b[2] as nat == h.key / 256 && b[3] as nat == h.key % 256
            && b[4] as nat == h.serial / 256 && b[5] as nat == h.serial % 256
            && b[6] as nat == h.dataLength / 256 && b[7] as nat == h.dataLength % 256
            && b[8] as nat == h.filePosition / 0x1_00_0000 && b[9] as nat == h.filePosition / 0x1_0000 % 256
            && b[10] as nat == h.filePosition / 256 % 256 && b[11] as nat == h.filePosition % 256
            && b[12..] == p.data + p.extra
  {
    hide ChecksumOf;
    TwoOctets(p.header.key);
    TwoOctets(p.header.serial);
    TwoOctets(p.header.dataLength);
    FourOctets(p.header.filePosition);
    hide ToBe;
  }

  lemma TwoOctets(n: U16)
    ensures ToBe(n, 2) == [(n / 256) as Octet, (n % 256) as Octet]
  {
    assert ToBe(n / 256, 1) == ToBe(n / 256 / 256, 0) + [(n / 256 % 256) as Octet];
  }

  lemma FourOctets(n: U32)
    ensures ToBe(n, 4) == [(n / 0x1_00_0000) as Octet, (n / 0x1_0000 % 256) as Octet, (n / 256 % 256) as Octet, (n % 256) as Octet]
  {
    assert n / 256 / 256 == n / 0x1_0000 && n / 0x1_0000 / 256 == n / 0x1_00_0000;
    TwoOctets(n / 0x1_0000);
    assert ToBe(n, 4) == ToBe(n / 256, 3) + [(n % 256) as Octet];
    assert ToBe(n / 256, 3) == ToBe(n / 256 / 256, 2) + [(n / 256 % 256) as Octet];
  }

  /** The checksum's terms written out: everything but the second octet, from zero
      towards a client and from the packet's length towards a server. */
  lemma ChecksumOfHeader(b: Blob)
    requires |b| == 12
    ensures var s := b[0] as nat + b[2] as nat + b[3] as nat + b[4] as nat + b[5] as nat + b[6] as nat
                     + b[7] as nat + b[8] as nat + b[9] as nat + b[10] as nat + b[11] as nat;
            && ChecksumOf(b, ServerToClient) as nat == (s + s / 256) % 256
            && ChecksumOf(b, ClientToServer) as nat == (s + 12 + (s + 12) / 256) % 256
  {
    hide Sum, Fold;
    SumOfHeader(b);
    ChecksumOfSmall(b, ServerToClient);
    ChecksumOfSmall(b, ClientToServer);
    FoldOf(Total(b, ServerToClient));
    FoldOf(Total(b, ClientToServer));
  }

  lemma SumOfHeader(b: Blob)
    requires |b| == 12
    ensures Sum(b, 12) == b[0] as nat + b[2] as nat + b[3] as nat + b[4] as nat + b[5] as nat + b[6] as nat
                          + b[7] as nat + b[8] as nat + b[9] as nat + b[10] as nat + b[11] as nat
  {
    hide Sum;
    SumStart(b);
    SumNext(b, 3);
    SumNext(b, 4);
    SumNext(b, 5);
    SumNext(b, 6);
    SumNext(b, 7);
    SumNext(b, 8);
    SumNext(b, 9);
    SumNext(b, 10);
    SumNext(b, 11);
  }

  lemma FoldOf(s: nat)
    ensures Fold(s) as nat == (s + s / 256) % 256
  {
  }

  lemma SumNext(b: Blob, n: nat)
    requires 2 <= n < |b|
    ensures Sum(b, n + 1) == Sum(b, n) + b[n] as nat
  {
  }

  lemma SumStart(b: Blob)
    requires |b| >= 3
    ensures Sum(b, 3) == b[0] as nat + b[2] as nat
  {
    assert Sum(b, 1) == b[0] as nat;
    assert Sum(b, 2) == Sum(b, 1);
  }

  /** What decoding makes of any encoded packet, truthful about its length or not. */
  lemma DecodeOfEncode(p: Packet, direction: Direction)
    ensures var payload := p.data + p.extra;
            var claimed := p.header.dataLength;
            Decode(Encode(p, direction), direction) ==
            if claimed > |payload| then Err(LengthOverrun(claimed, |payload|))
            else Ok(Packet(p.header, payload[..claimed], payload[claimed..]))
  {
    hide Laid;
    var b := Encode(p, direction);
    EncodedChecksum(p, direction);
    HeaderOfLaid(p, ChecksumOf(Laid(p, 0), direction));
    if p.header.dataLength <= |p.data + p.extra| {
      var cut := HEADER_LEN + p.header.dataLength;
      assert b[HEADER_LEN..cut] == b[HEADER_LEN..][..p.header.dataLength];
      assert b[cut..] == b[HEADER_LEN..][p.header.dataLength..];
    }
  }

  /** A packet survives the wire if and only if its header tells its data's length. */
  lemma PacketRoundTrip(p: Packet, direction: Direction)
    ensures Decode(Encode(p, direction), direction) == Ok(p) <==> p.header.dataLength == |p.data|
  {
    hide Encode, Decode;
    DecodeOfEncode(p, direction);
    var payload := p.data + p.extra;
    if p.header.dataLength == |p.data| {
      assert payload[..|p.data|] == p.data && payload[|p.data|..] == p.extra;
    }
  }

  /** Whatever decodes, encodes back to the same octets. */
  lemma OctetsRoundTrip(b: Blob, direction: Direction)
    requires Decode(b, direction).Ok?
    ensures var p := Decode(b, direction).value;
            Encode(p, direction) == b && p.header.dataLength == |p.data|
  {
    hide Laid, Sum, Fold;
    var p := Decode(b, direction).value;
    LaidOfDecoded(b, p);
    LaidField(p, b[1], 0);
    SumSkipsField(b, 0, |b|);
  }

  lemma LaidOfDecoded(b: Blob, p: Packet)
    requires |b| >= HEADER_LEN && p.header == HeaderOf(b)
    requires p.data + p.extra == b[HEADER_LEN..]
    ensures Laid(p, b[1]) == b
  {
    ToBeFromBe(b[2..4]);
    ToBeFromBe(b[4..6]);
    ToBeFromBe(b[6..8]);
    ToBeFromBe(b[8..12]);
    var head := [b[0], b[1]] + b[2..4] + b[4..6] + b[6..8] + b[8..12];
    assert head == b[..12];
    assert Laid(p, b[1]) == head + (p.data + p.extra);
  }

  /** Which error, and when: too short below twelve octets, then the checksum, then the
      length told. */
  lemma RefusedExactly(b: Blob, direction: Direction)
    ensures |b| < 12 <==> Decode(b, direction) == Err(TooShort)
    ensures |b| >= 12 && b[1] != ChecksumOf(b, direction) <==>
            Decode(b, direction).Err? && Decode(b, direction).error.BadChecksum?
    ensures |b| >= 12 && b[1] == ChecksumOf(b, direction) && b[6] as nat * 256 + b[7] as nat > |b| - 12 <==>
            Decode(b, direction).Err? && Decode(b, direction).error.LengthOverrun?
  {
    hide ChecksumOf;
    if |b| >= 12 {
      TwoOctetsRead(b[6..8]);
    }
  }

  lemma TwoOctetsRead(b: Blob)
    requires |b| == 2
    ensures FromBe(b) == b[0] as nat * 256 + b[1] as nat
  {
    assert FromBe(b[..1]) == FromBe(b[..1][..0]) * 256 + b[0] as nat;
    assert FromBe([]) == 0;
  }

  // ------------------------------------------------------------ error detection

  /** The unreduced sum; below 2^24 octets it never reaches 32 bits. */
  function Total(b: Blob, direction: Direction): nat {
    (if direction.ServerToClient? then 0 else |b|) + Sum(b, |b|)
  }

  lemma {:induction false} SumBound(b: Blob, n: nat)
    requires n <= |b|
    ensures Sum(b, n) <= 255 * n
  {
    if n > 0 { SumBound(b, n - 1); }
  }

  lemma ChecksumOfSmall(b: Blob, direction: Direction)
    requires |b| < U24_LIMIT
    ensures ChecksumOf(b, direction) == Fold(Total(b, direction))
  {
    hide Fold, Sum;
    SumBound(b, |b|);
    assert Initial(b, direction) + Sum(b, |b|) == Total(b, direction) < U32_LIMIT;
  }

  /** Changing one octet outside the checksum field moves the sum by the difference. */
  lemma {:induction false} SumOfChange(b: Blob, i: nat, v: Octet, n: nat)
    requires i < |b| && i != 1 && n <= |b|
    ensures Sum(b[i := v], n) == Sum(b, n) + if i < n then v as int - b[i] as int else 0
  {
    if n > 0 { SumOfChange(b, i, v, n - 1); }
  }

  /** Two sums less than one octet apart have the same checksum in two cases only. */
  lemma FoldCollision(s: nat, t: nat)
    requires s != t && -256 < t - s < 256
    ensures Fold(s) == Fold(t) <==> (t - s == 255 && s % 256 >= 1) || (s - t == 255 && s % 256 <= 254)
  {
    FoldIs(s);
    FoldIs(t);
    var q, r := s / 256, s % 256;
    var q', r' := t / 256, t % 256;
    assert q' == q || q' == q + 1 || q' == q - 1;
    SameResidue(q + r, q' + r');
  }

  lemma FoldIs(s: nat)
    ensures Fold(s) as nat == (s / 256 + s % 256) % 256
  {
    assert s + s / 256 == 256 * (s / 256) + (s / 256 + s % 256);
    ModuloSkips(s / 256 + s % 256, s / 256);
  }

  lemma {:induction false} ModuloSkips(x: nat, k: nat)
    ensures (256 * k + x) % 256 == x % 256
  {
  }

  lemma SameResidue(x: nat, y: nat)
    requires -512 < x - y < 512
    ensures x % 256 == y % 256 <==> x == y || x - y == 256 || y - x == 256
  {
  }

  /** The one change a packet's checksum cannot see: an octet outside the checksum
      field going from 0x00 to 0xFF or back, at the sums given. */
  predicate Unseen(b: Blob, direction: Direction, i: nat, v: Octet)
    requires i < |b|
  {
    && i != 1
    && ((b[i] == 0 && v == 255 && Total(b, direction) % 256 >= 1)
        || (b[i] == 255 && v == 0 && Total(b, direction) % 256 <= 254))
  }

  /** Every single-octet change is refused as a bad checksum, except exactly the
      unseen ones. */
  lemma SingleOctetChange(b: Blob, direction: Direction, i: nat, v: Octet)
    requires Decode(b, direction).Ok? && |b| < U24_LIMIT && i < |b| && v != b[i]
    ensures var r := Decode(b[i := v], direction);
            (r.Err? && r.error.BadChecksum?) <==> !Unseen(b, direction, i, v)
    ensures !Unseen(b, direction, i, v) ==> Decode(b[i := v], direction).Err?
  {
    var b' := b[i := v];
    ChecksumOfSmall(b, direction);
    ChecksumOfSmall(b', direction);
    if i == 1 {
      SumSkipsField(b, v, |b|);
    } else {
      SumOfChange(b, i, v, |b|);
      FoldCollision(Total(b, direction), Total(b', direction));
    }
  }

  function Other(direction: Direction): Direction {
    if direction.ServerToClient? then ClientToServer else ServerToClient
  }

  /** When the two directions' checksums of the same octets agree. */
  predicate DirectionBlind(b: Blob) {
    var s := Sum(b, |b|);
    (|b| + (s + |b|) / 256 - s / 256) % 256 == 0
  }

  lemma FoldShift(s: nat, n: nat)
    ensures Fold(s) == Fold(s + n) <==> (n + (s + n) / 256 - s / 256) % 256 == 0
  {
    var x := s + s / 256;
    var d := n + (s + n) / 256 - s / 256;
    assert x + d == (s + n) + (s + n) / 256;
    ResidueShift(x, d);
  }

  lemma ResidueShift(x: nat, d: nat)
    ensures (x + d) % 256 == x % 256 <==> d % 256 == 0
  {
    var e := x % 256 + d % 256;
    assert x + d == 256 * (x / 256 + d / 256) + e;
    ModuloSkips(e, x / 256 + d / 256);
  }

  lemma BlindChecksums(b: Blob, direction: Direction)
    requires |b| < U24_LIMIT
    ensures ChecksumOf(b, direction) == ChecksumOf(b, Other(direction)) <==> DirectionBlind(b)
  {
    hide Fold;
    ChecksumOfSmall(b, ServerToClient);
    ChecksumOfSmall(b, ClientToServer);
    FoldShift(Sum(b, |b|), |b|);
  }

  /** A packet that decodes in one direction is refused in the other unless it is
      blind to direction, and no packet of 12 to 254 octets is. */
  lemma OtherDirectionRefused(b: Blob, direction: Direction)
    requires Decode(b, direction).Ok? && |b| < U24_LIMIT
    ensures var r := Decode(b, Other(direction));
            && (DirectionBlind(b) ==> r == Decode(b, direction))
            && (!DirectionBlind(b) ==> r == Err(BadChecksum(ChecksumOf(b, Other(direction)), b[1])))
            && (|b| <= 254 ==> !DirectionBlind(b))
  {
    hide ChecksumOf, DirectionBlind, HeaderOf;
    BlindChecksums(b, direction);
    if |b| <= 254 {
      ShortIsNotBlind(b);
    }
  }

  lemma ShortIsNotBlind(b: Blob)
    requires 1 <= |b| <= 254
    ensures !DirectionBlind(b)
  {
  }

  lemma {:induction false} SumOfZeros(b: Blob, n: nat)
    requires 1 <= n <= |b| && forall i :: 2 <= i < |b| ==> b[i] == 0
    ensures Sum(b, n) == b[0] as nat
  {
    if n > 1 {
      SumOfZeros(b, n - 1);
    } else {
      assert Sum(b, 0) == 0;
    }
  }

  function Zeros(n: nat): Blob {
    seq(n, _ => 0)
  }

  lemma {:induction false} ZeroBe(k: nat)
    ensures ToBe(0, k) == Zeros(k)
  {
    if k > 0 { ZeroBe(k - 1); }
  }

  lemma ZerosLaid(n: nat, c: Octet)
    ensures var b := Laid(Packet(Header(1, 0, 0, 0, 0), Zeros(0), Zeros(n)), c);
            b[0] == 1 && forall i :: 2 <= i < |b| ==> b[i] == 0
  {
    ZeroBe(2);
    ZeroBe(4);
  }

  /** At 255 octets the bound is reached: this packet reads the same both ways. */
  lemma BlindAt255()
    ensures var p := Packet(Header(1, 0, 0, 0, 0), Zeros(0), Zeros(243));
            |Encode(p, ServerToClient)| == 255
            && Decode(Encode(p, ServerToClient), ClientToServer) == Ok(p)
  {
    hide Laid;
    var p := Packet(Header(1, 0, 0, 0, 0), Zeros(0), Zeros(243));
    var b := Encode(p, ServerToClient);
    PacketRoundTrip(p, ServerToClient);
    OtherDirectionRefused(b, ServerToClient);
    ZerosLaid(243, ChecksumOf(Laid(p, 0), ServerToClient));
    SumOfZeros(b, |b|);
    assert p.data + p.extra == Zeros(243);
  }

  // ---------------------------------------------------------- directory blocks

  const RDTYPE_END: Octet := 0x00
  const RDTYPE_FILE: Octet := 0x01
  const RDTYPE_DIR: Octet := 0x02
  const RDTYPE_SKIP: Octet := 0x2A

  datatype EntryKind = File | Directory

  datatype DirEntry = DirEntry(time: U32, size: U32, kind: EntryKind, name: Blob)

  function KindOf(code: Octet): Option<EntryKind> {
    if code == RDTYPE_FILE then Some(File) else if code == RDTYPE_DIR then Some(Directory) else None
  }

  /** Where the first NUL is. */
  function FindNul(b: Blob): (at: Option<nat>)
    ensures at.None? ==> 0 !in b
    ensures at.Some? ==> at.value < |b| && b[at.value] == 0 && 0 !in b[..at.value]
  {
    if b == [] then None
    else if b[0] == 0 then Some(0)
    else
      match FindNul(b[1..])
      case None => None
      case Some(k) =>
        assert b[..k + 1] == [b[0]] + b[1..][..k];
        Some(k + 1)
  }

  function PadTo4(n: nat): (m: nat)
    ensures n <= m < n + 4 && m % 4 == 0
  {
    (n + 3) / 4 * 4
  }

  function Rest(b: Blob, at: nat): Blob {
    if at <= |b| then b[at..] else []
  }

  /** One entry at the head of a block: `None` where the walk stops, otherwise the
      entry, if its type is a known one, and the aligned length of it. */
  function HeadEntry(b: Blob): (head: Option<(Option<DirEntry>, nat)>)
    ensures head.Some? ==> |b| >= 10 && head.value.1 >= 12 && head.value.1 % 4 == 0 && head.value.1 < |b| + 4
  {
    if |b| < 9 || b[8] == RDTYPE_END || b[8] == RDTYPE_SKIP then None
    else
      match FindNul(b[9..])
      case None => None
      case Some(nul) =>
        PowersOf256();
        ToBeFromBe(b[..4]);
        ToBeFromBe(b[4..8]);
        var entry :=
          match KindOf(b[8])
          case None => None
          case Some(kind) => Some(DirEntry(FromBe(b[..4]), FromBe(b[4..8]), kind, b[9..9 + nul]));
        Some((entry, PadTo4(9 + nul + 1)))
  }

  function Listed(entry: Option<DirEntry>): seq<DirEntry> {
    if entry.Some? then [entry.value] else []
  }

  /** The entries of a block, read one after another. */
  function Walk(b: Blob): seq<DirEntry>
    decreases |b|
  {
    match HeadEntry(b)
    case None => []
    case Some((entry, length)) => Listed(entry) + Walk(Rest(b, length))
  }

  /** Walks a block with a cursor that stays aligned and moves on by twelve octets
      or more at every entry. */
  method ParseDirectory(b: Blob) returns (entries: seq<DirEntry>)
    ensures entries == Walk(b)
  {
    hide KindOf, FromBe, Walk, FindNul, PadTo4;
    entries := [];
    var at: nat := 0;
    assert Rest(b, 0) == b;
    while at + 9 <= |b|
      invariant at % 4 == 0
      invariant entries + Walk(Rest(b, at)) == Walk(b)
      decreases |b| - at
    {
      var kindByte := b[at + 8];
      if kindByte == RDTYPE_END || kindByte == RDTYPE_SKIP {
        WalkStops(b, at);
        break;
      }
      var nameStart := at + 9;
      var nul := FindNul(b[nameStart..]);
      if nul.None? {
        WalkStops(b, at);
        break;
      }
      EntryAt(b, at, nul.value);
      var end := nameStart + nul.value + 1;
      var next := PadTo4(end);
      ghost var before := entries;
      match KindOf(kindByte) {
        case Some(kind) =>
          entries := entries + [DirEntry(FromBe(b[at..at + 4]), FromBe(b[at + 4..at + 8]), kind,
                                         b[nameStart..nameStart + nul.value])];
        case None =>
      }
      MovesOn(b, before, entries, at, next);
      at := next;
    }
    if at + 9 > |b| {
      WalkStops(b, at);
    }
  }

  lemma MovesOn(b: Blob, before: seq<DirEntry>, after: seq<DirEntry>, at: nat, next: nat)
    requires before + Walk(Rest(b, at)) == Walk(b)
    requires before <= after && Walk(Rest(b, at)) == after[|before|..] + Walk(Rest(b, next))
    ensures after + Walk(Rest(b, next)) == Walk(b)
  {
    hide Walk, Rest;
    assert after == before + after[|before|..];
  }

  lemma WalkStops(b: Blob, at: nat)
    requires at + 9 <= |b| ==> b[at + 8] == RDTYPE_END || b[at + 8] == RDTYPE_SKIP || FindNul(b[at + 9..]).None?
    ensures Walk(Rest(b, at)) == []
  {
    if at + 9 <= |b| {
      assert Rest(b, at)[9..] == b[at + 9..];
    }
  }

  lemma EntryAt(b: Blob, at: nat, nul: nat)
    requires at % 4 == 0 && at + 9 <= |b| && b[at + 8] != RDTYPE_END && b[at + 8] != RDTYPE_SKIP
    requires FindNul(b[at + 9..]) == Some(nul)
    ensures FromBe(b[at..at + 4]) < U32_LIMIT && FromBe(b[at + 4..at + 8]) < U32_LIMIT
    ensures var time: U32, size: U32 := FromBe(b[at..at + 4]), FromBe(b[at + 4..at + 8]);
            var kind := KindOf(b[at + 8]);
            var next := PadTo4(at + 9 + nul + 1);
            && next % 4 == 0 && next >= at + 12
            && Walk(Rest(b, at)) ==
               Listed(if kind.Some? then Some(DirEntry(time, size, kind.value, b[at + 9..at + 9 + nul])) else None)
               + Walk(Rest(b, next))
  {
    hide KindOf, FromBe, FindNul, PadTo4, Walk, HeadEntry;
    var rest := Rest(b, at);
    RestSlices(b, at, nul);
    HeadOf(rest, nul);
    WalkHead(rest);
    PadShift(at, 9 + nul + 1);
    RestOfRest(b, at, PadTo4(9 + nul + 1));
  }

  lemma RestSlices(b: Blob, at: nat, nul: nat)
    requires at + 9 + nul <= |b|
    ensures var rest := Rest(b, at);
            && |rest| >= 9 + nul && rest[8] == b[at + 8] && rest[9..] == b[at + 9..] && rest[..4] == b[at..at + 4]
            && rest[4..8] == b[at + 4..at + 8] && rest[9..9 + nul] == b[at + 9..at + 9 + nul]
  {
  }

  lemma RestOfRest(b: Blob, at: nat, n: nat)
    ensures Rest(Rest(b, at), n) == Rest(b, at + n)
  {
  }

  lemma HeadOf(b: Blob, nul: nat)
    requires |b| >= 9 && b[8] != RDTYPE_END && b[8] != RDTYPE_SKIP && FindNul(b[9..]) == Some(nul)
    ensures FromBe(b[..4]) < U32_LIMIT && FromBe(b[4..8]) < U32_LIMIT
    ensures var time: U32, size: U32 := FromBe(b[..4]), FromBe(b[4..8]);
            var kind := KindOf(b[8]);
            HeadEntry(b) == Some((if kind.Some? then Some(DirEntry(time, size, kind.value, b[9..9 + nul])) else None,
                                  PadTo4(9 + nul + 1)))
  {
    hide KindOf, FromBe, FindNul, PadTo4;
    PowersOf256();
    ToBeFromBe(b[..4]);
    ToBeFromBe(b[4..8]);
  }

  lemma WalkHead(b: Blob)
    requires HeadEntry(b).Some?
    ensures Walk(b) == Listed(HeadEntry(b).value.0) + Walk(Rest(b, HeadEntry(b).value.1))
  {
    hide HeadEntry;
  }

  lemma PadShift(at: nat, n: nat)
    requires at % 4 == 0
    ensures PadTo4(at + n) == at + PadTo4(n) && (n >= 10 ==> PadTo4(n) >= 12)
  {
  }

  predicate EntryOk(e: DirEntry) {
    0 !in e.name
  }

  function CodeOf(kind: EntryKind): Octet {
    if kind.File? then RDTYPE_FILE else RDTYPE_DIR
  }

  /** One entry the way a server lays it out, padded with zeros to a multiple of 4. */
  function LaidEntry(e: DirEntry): (b: Blob)
    ensures |b| == PadTo4(9 + |e.name| + 1)
  {
    ToBe(e.time, 4) + ToBe(e.size, 4) + [CodeOf(e.kind)] + e.name + [0]
    + Zeros(PadTo4(9 + |e.name| + 1) - (9 + |e.name| + 1))
  }

  function LaidOut(entries: seq<DirEntry>): Blob {
    if entries == [] then [] else LaidEntry(entries[0]) + LaidOut(entries[1..])
  }

  lemma {:induction false} FindNulAfter(name: Blob, tail: Blob)
    requires 0 !in name
    ensures FindNul(name + [0] + tail) == Some(|name|)
  {
    if name != [] {
      FindNulAfter(name[1..], tail);
      assert (name + [0] + tail)[1..] == name[1..] + [0] + tail;
      assert (name + [0] + tail)[0] == name[0] && name[0] in name;
    }
  }

  lemma WalkOfLaidEntry(e: DirEntry, tail: Blob)
    requires EntryOk(e)
    ensures Walk(LaidEntry(e) + tail) == [e] + Walk(tail)
  {
    hide ToBe, FromBe, FindNul;
    var b := LaidEntry(e) + tail;
    var padding := PadTo4(9 + |e.name| + 1) - (9 + |e.name| + 1);
    PowersOf256();
    FromBeToBe(e.time, 4);
    FromBeToBe(e.size, 4);
    assert b[..4] == ToBe(e.time, 4) && b[4..8] == ToBe(e.size, 4) && b[8] == CodeOf(e.kind);
    assert b[9..] == e.name + [0] + (Zeros(padding) + tail);
    FindNulAfter(e.name, Zeros(padding) + tail);
    assert b[9..9 + |e.name|] == e.name;
    assert Rest(b, |LaidEntry(e)|) == tail;
  }

  /** A server's layout reads back exactly, followed by whatever the rest of the
      block reads as. */
  lemma {:induction false} DirectoryRoundTrip(entries: seq<DirEntry>, tail: Blob)
    requires forall e :: e in entries ==> EntryOk(e)
    ensures Walk(LaidOut(entries) + tail) == entries + Walk(tail)
  {
    hide LaidEntry, Walk, EntryOk;
    if entries == [] {
      assert LaidOut(entries) + tail == tail;
    } else {
      DirectoryRoundTrip(entries[1..], tail);
      assert LaidOut(entries) + tail == LaidEntry(entries[0]) + (LaidOut(entries[1..]) + tail);
      WalkOfLaidEntry(entries[0], LaidOut(entries[1..]) + tail);
    }
  }

  /** An entry's octets: time, size, type 1 for a file and 2 for a directory, its name,
      a NUL, and zeros up to a multiple of four. */
  lemma EntryLayout(e: DirEntry)
    ensures var b := LaidEntry(e);
            && |b| % 4 == 0 && 10 + |e.name| <= |b| < 14 + |e.name|
            && b[..4] == ToBe(e.time, 4) && b[4..8] == ToBe(e.size, 4)
            && b[8] == (match e.kind case File => 1 case Directory => 2)
            && b[9..9 + |e.name|] == e.name
            && forall i :: 9 + |e.name| <= i < |b| ==> b[i] == 0
  {
    hide ToBe;
  }

  /** A type octet of 0 or 0x2A ends the walk; any other than 1 and 2 is passed over. */
  lemma TypeOctets(b: Blob, nul: nat)
    requires |b| >= 9
    ensures b[8] == 0 || b[8] == 0x2A ==> Walk(b) == []
    ensures b[8] !in {0, 1, 2, 0x2A} && FindNul(b[9..]) == Some(nul) ==> Walk(b) == Walk(Rest(b, PadTo4(10 + nul)))
  {
    hide FromBe, FindNul, PadTo4, Pow256;
    if b[8] != 0 && b[8] != 0x2A && FindNul(b[9..]) == Some(nul) {
      HeadOf(b, nul);
      WalkHead(b);
    }
  }

  /** A block ended by END, by SKIP, by fewer octets than an entry's fixed part, or
      by an unterminated name: nothing past that point is read. */
  predicate Stops(tail: Blob) {
    |tail| < 9 || tail[8] == RDTYPE_END || tail[8] == RDTYPE_SKIP || 0 !in tail[9..]
  }

  lemma TerminatedDirectory(entries: seq<DirEntry>, tail: Blob)
    requires (forall e :: e in entries ==> EntryOk(e)) && Stops(tail)
    ensures Walk(LaidOut(entries) + tail) == entries
  {
    DirectoryRoundTrip(entries, tail);
  }

  /** Whatever the octets, every entry read is one a server could have laid out, and
      the block has room for the entries read. */
  lemma {:induction false} WalkBounds(b: Blob)
    ensures var entries := Walk(b);
            && (forall e :: e in entries ==> EntryOk(e))
            && (entries != [] ==> 12 * (|entries| - 1) + 10 <= |b|)
    decreases |b|
  {
    var head := HeadEntry(b);
    if head.Some? {
      WalkBounds(Rest(b, head.value.1));
    }
  }

  /** Laying out what was read and reading it again changes nothing. */
  lemma WalkNormalForm(b: Blob)
    ensures Walk(LaidOut(Walk(b))) == Walk(b)
  {
    WalkBounds(b);
    TerminatedDirectory(Walk(b), []);
    assert LaidOut(Walk(b)) + [] == LaidOut(Walk(b));
  }
}
