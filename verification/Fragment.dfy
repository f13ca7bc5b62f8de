/**
 fragment_ipv4 of rust/porta-wire/src/mtu.rs and what its output means:
 IPv4 packets that reassemble (RFC 791, section 3.2) to the packet cut.
 */
module Fragment {
  import opened Bytes
  import opened Checksum
  import opened Ipv4
  import opened Options

  const MIN_IPV4_MTU := 68
  const MAX_U16 := 65535

  function OptionsOf(p: Packet): (r: seq<byte>)
    requires HeaderLength(p).Ok?
    ensures |r| == HeaderLength(p).value - 20 && |r| % 4 == 0
  {
    p[20..HeaderLength(p).value]
  }

  function FlagWord(offset: nat, more: bool): (w: int)
    requires offset < 0x10000
    ensures 0 <= w < 0x4000 && w % 0x2000 == offset / 8 && (w / 0x2000 % 2 == 1 <==> more)
  {
    offset / 8 + if more then 0x2000 else 0
  }

  /** The fixed header of a fragment, its checksum not yet recomputed. */
  function FixedHeader(p: Packet, header: nat, total: nat, w: int): (h: seq<byte>)
    requires |p| >= 20 && 20 <= header <= 60 && header % 4 == 0 && total <= MAX_U16 && 0 <= w < 0x4000
    ensures |h| == 20 && h[0] == 0x40 + header / 4 && Word(h[2], h[3]) == total && Word(h[6], h[7]) == w
    ensures h[1] == p[1] && h[4] == p[4] && h[5] == p[5] && h[8] == p[8] && h[9] == p[9] && h[10..] == p[10..20]
  {
    [0x40 + header / 4, p[1], Hi(total), Lo(total), p[4], p[5], Hi(w), Lo(w), p[8], p[9]] + p[10..20]
  }

  /** A fragment before its checksum is set. */
  function Unsealed(p: Packet, options: seq<byte>, offset: nat, more: bool, payload: seq<byte>): (r: Packet)
    requires |p| >= 20 && |options| <= 40 && |options| % 4 == 0
    requires offset < 0x10000 && 20 + |options| + |payload| <= MAX_U16
    ensures |r| == 20 + |options| + |payload| && HeaderLength(r) == Ok(20 + |options|)
    ensures r[..20] == FixedHeader(p, 20 + |options|, |r|, FlagWord(offset, more))
    ensures r[20..20 + |options|] == options && r[20 + |options|..] == payload
  {
    var total := 20 + |options| + |payload|;
    var h := FixedHeader(p, 20 + |options|, total, FlagWord(offset, more));
    var r := h + options + payload;
    assert r[0] == h[0];
    r
  }

  function Build(p: Packet, options: seq<byte>, offset: nat, more: bool, payload: seq<byte>): Packet
    requires |p| >= 20 && |options| <= 40 && |options| % 4 == 0
    requires offset < 0x10000 && 20 + |options| + |payload| <= MAX_U16
  {
    Sealed(Unsealed(p, options, offset, more, payload))
  }

  /** What is to be cut: the packet, the options of later pieces, and the limit. */
  datatype Job = Job(packet: Packet, copied: seq<byte>, mtu: nat)

  predicate ValidJob(j: Job) {
    && Parse(j.packet).Ok?
    && |j.copied| <= |OptionsOf(j.packet)| && |j.copied| % 4 == 0
    && MIN_IPV4_MTU <= j.mtu <= MAX_U16
    && 20 + |j.copied| + Offset(j.packet) + |Payload(j.packet)| <= MAX_U16
  }

  function PieceOptions(j: Job, consumed: nat): (r: seq<byte>)
    requires ValidJob(j)
    ensures |r| <= |OptionsOf(j.packet)| && |r| % 4 == 0
  {
    if Offset(j.packet) + consumed == 0 then OptionsOf(j.packet) else j.copied
  }

  /** All that remains if it fits, or the largest multiple of eight that does. */
  function CutLength(room: nat, remaining: nat): (n: nat)
    requires room >= 8 && remaining > 0
    ensures 0 < n <= remaining && n <= room
    ensures n < remaining ==> n % 8 == 0
  {
    if remaining > room then room / 8 * 8 else remaining
  }

  /** Payload bytes of the next piece. */
  function PieceLength(j: Job, consumed: nat): (n: nat)
    requires ValidJob(j) && consumed < |Payload(j.packet)|
    ensures 0 < n <= |Payload(j.packet)| - consumed
    ensures 20 + |PieceOptions(j, consumed)| + n <= j.mtu
    ensures consumed + n < |Payload(j.packet)| ==> n % 8 == 0
  {
    CutLength(j.mtu - 20 - |PieceOptions(j, consumed)|, |Payload(j.packet)| - consumed)
  }

  function PieceAt(j: Job, consumed: nat): Packet
    requires ValidJob(j) && consumed < |Payload(j.packet)|
  {
    var payload := Payload(j.packet);
    var end := consumed + PieceLength(j, consumed);
    Build(j.packet, PieceOptions(j, consumed), Offset(j.packet) + consumed,
          end < |payload| || MoreFragments(j.packet), payload[consumed..end])
  }

  /** The pieces from `consumed` on. */
  function PiecesFrom(j: Job, consumed: nat): seq<Packet>
    requires ValidJob(j) && consumed <= |Payload(j.packet)|
    decreases |Payload(j.packet)| - consumed
  {
    if consumed == |Payload(j.packet)| then []
    else [PieceAt(j, consumed)] + PiecesFrom(j, consumed + PieceLength(j, consumed))
  }

  function Fragments(packet: Packet, mtu: nat): Result<seq<Packet>, MtuError> {
    if mtu < MIN_IPV4_MTU || mtu > MAX_U16 then Err(InvalidMtu)
    else if Parse(packet).Err? || !HeaderVerifies(packet) || Reserved(packet) then Err(InvalidPacket)
    else if |packet| <= mtu then Ok([packet])
    else if DontFragment(packet) then Err(FragmentationNeeded)
    else
      var copied := CopiedOptions(OptionsOf(packet));
      if copied.Err? then Err(copied.error)
      else if || (MoreFragments(packet) && |Payload(packet)| % 8 != 0)
              || ((MoreFragments(packet) || Offset(packet) != 0) && |Payload(packet)| == 0)
              || 20 + |copied.value| + Offset(packet) + |Payload(packet)| > MAX_U16
      then Err(InvalidPacket)
      else
        CopiedOptionsKeepFlagged(OptionsOf(packet));
        Ok(PiecesFrom(Job(packet, copied.value, mtu), 0))
  }

  /** The header fields written over a copy of the original's fixed header. */
  method FillHeader(fragment: array<byte>, packet: Packet, header: nat, w: int)
    requires |packet| >= 20 && 20 <= header <= 60 && header % 4 == 0 && header <= fragment.Length <= MAX_U16
    requires 0 <= w < 0x4000
    modifies fragment
    ensures fragment[..20] == FixedHeader(packet, header, fragment.Length, w)
    ensures fragment[20..] == old(fragment[20..])
  {
    hide Hi, Lo, Word;
    forall i | 0 <= i < 20 { fragment[i] := packet[i]; }
    var total := fragment.Length;
    fragment[0] := 0x40 + header / 4;
    fragment[2], fragment[3] := Hi(total), Lo(total);
    fragment[6], fragment[7] := Hi(w), Lo(w);
  }

  /** One iteration's buffer. */
  method Fill(packet: Packet, options: seq<byte>, offset: nat, more: bool, payload: seq<byte>)
    returns (fragment: array<byte>)
    requires |packet| >= 20 && |options| <= 40 && |options| % 4 == 0
    requires offset < 0x10000 && 20 + |options| + |payload| <= MAX_U16
    ensures fresh(fragment)
    ensures fragment[..] == Unsealed(packet, options, offset, more, payload)
  {
    hide *;
    var header := 20 + |options|;
    fragment := new byte[header + |payload|](_ => 0);
    forall i | 20 <= i < header { fragment[i] := options[i - 20]; }
    forall i | header <= i < fragment.Length { fragment[i] := payload[i - header]; }
    assert fragment[20..] == options + payload;
    FillHeader(fragment, packet, header, FlagWord(offset, more));
    UnsealedParts(packet, options, offset, more, payload);
    assert fragment[..] == fragment[..20] + fragment[20..];
  }

  lemma {:induction false} UnsealedParts(p: Packet, options: seq<byte>, offset: nat, more: bool, payload: seq<byte>)
    requires |p| >= 20 && |options| <= 40 && |options| % 4 == 0
    requires offset < 0x10000 && 20 + |options| + |payload| <= MAX_U16
    ensures Unsealed(p, options, offset, more, payload)
            == FixedHeader(p, 20 + |options|, 20 + |options| + |payload|, FlagWord(offset, more)) + (options + payload)
  {
    hide FixedHeader, FlagWord, HeaderLength;
  }

  /** The buffer sealed in place. */
  method BuildInPlace(packet: Packet, options: seq<byte>, offset: nat, more: bool, payload: seq<byte>)
    returns (fragment: array<byte>)
    requires |packet| >= 20 && |options| <= 40 && |options| % 4 == 0
    requires offset < 0x10000 && 20 + |options| + |payload| <= MAX_U16
    ensures fresh(fragment)
    ensures fragment[..] == Build(packet, options, offset, more, payload)
  {
    hide Unsealed, HeaderLength, Sealed, FixedHeader, FlagWord;
    fragment := Fill(packet, options, offset, more, payload);
    var sealed := SetHeaderChecksum(fragment);
    assert sealed.Ok?;
  }

  lemma {:induction false} PiecesStep(j: Job, consumed: nat, before: seq<Packet>)
    requires ValidJob(j) && consumed < |Payload(j.packet)|
    ensures before + PiecesFrom(j, consumed)
            == (before + [PieceAt(j, consumed)]) + PiecesFrom(j, consumed + PieceLength(j, consumed))
  {
    hide PieceAt, ValidJob, PieceLength;
  }

  lemma {:induction false} PiecesEnd(j: Job)
    requires ValidJob(j)
    ensures PiecesFrom(j, |Payload(j.packet)|) == []
  {
  }

  /** The while loop of fragment_ipv4; its in-loop InvalidMtu exit is never taken. */
  method CutPieces(ghost j: Job, packet: Packet, options: seq<byte>, copied: seq<byte>, mtu: nat)
    returns (fragments: seq<Packet>)
    requires j == Job(packet, copied, mtu) && ValidJob(j) && options == OptionsOf(packet)
    ensures fragments == PiecesFrom(j, 0)
  {
    hide Build, HeaderLength, Parse, Flags, PiecesFrom;
    var payload := Payload(packet);
    var start := Offset(packet);
    var consumed := 0;
    fragments := [];
    while consumed < |payload|
      invariant 0 <= consumed <= |payload|
      invariant fragments + PiecesFrom(j, consumed) == PiecesFrom(j, 0)
    {
      var used := if start + consumed == 0 then options else copied;
      assert mtu >= 20 + |used| + 8;
      var remaining := |payload| - consumed;
      var room := mtu - (20 + |used|);
      var length := CutLength(room, remaining);
      assert length == PieceLength(j, consumed);
      var fragment := BuildInPlace(packet, used, start + consumed,
                                   consumed + length < |payload| || MoreFragments(packet),
                                   payload[consumed..consumed + length]);
      var piece := fragment[..];
      assert piece == PieceAt(j, consumed);
      PiecesStep(j, consumed, fragments);
      fragments := fragments + [piece];
      consumed := consumed + length;
    }
    PiecesEnd(j);
  }

  /** fragment_ipv4. */
  method FragmentIpv4(packet: Packet, mtu: nat) returns (r: Result<seq<Packet>, MtuError>)
    ensures r == Fragments(packet, mtu)
  {
    if mtu < MIN_IPV4_MTU || mtu > MAX_U16 {
      return Err(InvalidMtu);
    }
    var info := Parse(packet);
    if info.Err? {
      return Err(InvalidPacket);
    }
    var header := info.value.headerLength;
    var sum := ComputeChecksum(packet[..header]);
    if sum != 0 || Reserved(packet) {
      return Err(InvalidPacket);
    }
    if |packet| <= mtu {
      return Ok([packet]);
    }
    if DontFragment(packet) {
      return Err(FragmentationNeeded);
    }
    var options := OptionsOf(packet);
    var copied := CopyOptions(options);
    if copied.Err? {
      return Err(copied.error);
    }
    var payload := packet[header..];
    var start := Offset(packet);
    if || (MoreFragments(packet) && |payload| % 8 != 0)
       || (Flags(packet) % 0x4000 != 0 && |payload| == 0)
       || 20 + |copied.value| + start + |payload| > MAX_U16
    {
      return Err(InvalidPacket);
    }
    CopiedOptionsKeepFlagged(options);
    hide PiecesFrom, CopiedOptions, HeaderLength, InternetChecksum;
    var fragments := CutPieces(Job(packet, copied.value, mtu), packet, options, copied.value, mtu);
    return Ok(fragments);
  }

  // Reassembly.

  /** What a receiver keeps of a packet: its identity, its place and its bytes. */
  datatype Piece =
    | Opaque(raw: Packet)
    | Piece(ident: seq<byte>, offset: nat, more: bool, payload: seq<byte>)

  /** Type of service, identification, time to live, protocol and addresses. */
  function Ident(p: Packet): seq<byte>
    requires |p| >= 20
  {
    [p[1], p[4], p[5], p[8], p[9]] + p[12..20]
  }

  function View(p: Packet): Piece {
    if Parse(p).Ok? then Piece(Ident(p), Offset(p), MoreFragments(p), Payload(p)) else Opaque(p)
  }

  function Views(ps: seq<Packet>): (r: seq<Piece>)
    ensures |r| == |ps|
    ensures forall i :: 0 <= i < |ps| ==> r[i] == View(ps[i])
  {
    seq(|ps|, i requires 0 <= i < |ps| => View(ps[i]))
  }

  /** Two adjacent pieces of one datagram make a longer one. */
  function Append(a: Option<Piece>, b: Option<Piece>): Option<Piece> {
    if a.None? || b.None? || a.value.Opaque? || b.value.Opaque? then None
    else if a.value.ident == b.value.ident && a.value.more && b.value.offset == a.value.offset + |a.value.payload|
    then Some(Piece(a.value.ident, a.value.offset, b.value.more, a.value.payload + b.value.payload))
    else None
  }

  /** The piece covered, exactly once and without gaps, by pieces in order. */
  function Join(vs: seq<Piece>): Option<Piece> {
    if |vs| == 0 then None
    else if |vs| == 1 then Some(vs[0])
    else Append(Some(vs[0]), Join(vs[1..]))
  }

  lemma {:induction false} JoinConcat(xs: seq<Piece>, ys: seq<Piece>)
    requires |xs| > 0 && |ys| > 0
    ensures Join(xs + ys) == Append(Join(xs), Join(ys))
    decreases |xs|
  {
    assert (xs + ys)[1..] == xs[1..] + ys;
    if |xs| > 1 {
      JoinConcat(xs[1..], ys);
      AppendAssociates(Some(xs[0]), Join(xs[1..]), Join(ys));
    }
  }

  lemma {:induction false} AppendAssociates(a: Option<Piece>, b: Option<Piece>, c: Option<Piece>)
    ensures Append(Append(a, b), c) == Append(a, Append(b, c))
  {
    if a.Some? && b.Some? && c.Some? && a.value.Piece? && b.value.Piece? && c.value.Piece? {
      ConcatAssociates(a.value.payload, b.value.payload, c.value.payload);
    }
  }

  /** Replacing a piece by pieces that join to it changes nothing. */
  lemma {:induction false} JoinSplice(xs: seq<Piece>, y: Piece, ys: seq<Piece>, zs: seq<Piece>)
    requires Join(ys) == Some(y)
    ensures Join(xs + [y] + zs) == Join(xs + ys + zs)
  {
    assert |ys| > 0;
    if |zs| > 0 {
      JoinConcat([y], zs);
      JoinConcat(ys, zs);
    } else {
      assert [y] + zs == [y] && ys + zs == ys;
    }
    assert xs + [y] + zs == xs + ([y] + zs) && xs + ys + zs == xs + (ys + zs);
    if |xs| > 0 {
      JoinConcat(xs, [y] + zs);
      JoinConcat(xs, ys + zs);
    } else {
      assert xs + ([y] + zs) == [y] + zs && xs + (ys + zs) == ys + zs;
    }
  }

  // Properties of one built fragment.

  ghost predicate ValidFragment(f: Packet) {
    Parse(f).Ok? && HeaderVerifies(f) && !Reserved(f) && !DontFragment(f)
  }

  lemma {:induction false} UnsealedFields(p: Packet, options: seq<byte>, offset: nat, more: bool, payload: seq<byte>)
    requires |p| >= 20 && |options| <= 40 && |options| % 4 == 0
    requires offset < 0x10000 && 20 + |options| + |payload| <= MAX_U16
    ensures var u := Unsealed(p, options, offset, more, payload);
      && Word(u[2], u[3]) == |u|
      && Flags(u) == FlagWord(offset, more)
      && Ident(u) == Ident(p)
  {
    var u := Unsealed(p, options, offset, more, payload);
    var h := FixedHeader(p, 20 + |options|, |u|, FlagWord(offset, more));
    hide Unsealed, FixedHeader, HeaderLength, FlagWord, Word;
    assert forall i :: 0 <= i < 20 ==> u[i] == u[..20][i] == h[i];
    assert u[12..20] == u[..20][12..20] == h[10..][2..] == p[10..20][2..] == p[12..20];
  }

  lemma {:induction false} UnsealedMeaning(p: Packet, options: seq<byte>, offset: nat, more: bool, payload: seq<byte>)
    requires |p| >= 20 && |options| <= 40 && |options| % 4 == 0
    requires offset < 0x10000 && offset % 8 == 0 && 20 + |options| + |payload| <= MAX_U16
    ensures var u := Unsealed(p, options, offset, more, payload);
      && Parse(u).Ok? && !Reserved(u) && !DontFragment(u)
      && OptionsOf(u) == options
      && View(u) == Piece(Ident(p), offset, more, payload)
  {
    hide Unsealed, HeaderLength, FlagWord, Ident, Flags, Word;
    UnsealedFields(p, options, offset, more, payload);
  }

  /** Sealing touches only the checksum. */
  lemma {:induction false} SealedMeaning(u: Packet)
    requires Parse(u).Ok?
    ensures var f := Sealed(u);
      && Parse(f).Ok? && HeaderVerifies(f)
      && Flags(f) == Flags(u) && OptionsOf(f) == OptionsOf(u) && View(f) == View(u)
  {
    SealedVerifies(u);
    var f := Sealed(u);
    hide HeaderVerifies, Sealed, InternetChecksum, HeaderLength;
    var n := HeaderLength(u).value;
    SameBelow(f, u, 10);
    SliceSlice(f, 12, 0, 8);
    SliceSlice(u, 12, 0, 8);
    SliceSlice(f, 12, 8, n - 12);
    SliceSlice(u, 12, 8, n - 12);
    SliceRest(f, 12, n - 12);
    SliceRest(u, 12, n - 12);
  }

  lemma {:induction false} BuildMeaning(p: Packet, options: seq<byte>, offset: nat, more: bool, payload: seq<byte>)
    requires |p| >= 20 && |options| <= 40 && |options| % 4 == 0
    requires offset < 0x10000 && offset % 8 == 0 && 20 + |options| + |payload| <= MAX_U16
    ensures var f := Build(p, options, offset, more, payload);
      && ValidFragment(f)
      && |f| == 20 + |options| + |payload|
      && OptionsOf(f) == options
      && View(f) == Piece(Ident(p), offset, more, payload)
  {
    hide Sealed, Unsealed, HeaderLength, Parse, HeaderVerifies, View, Flags, OptionsOf, Ident;
    UnsealedMeaning(p, options, offset, more, payload);
    SealedMeaning(Unsealed(p, options, offset, more, payload));
  }

  lemma {:induction false} PieceMeaning(j: Job, consumed: nat)
    requires ValidJob(j) && consumed < |Payload(j.packet)| && consumed % 8 == 0
    ensures var f := PieceAt(j, consumed);
      var end := consumed + PieceLength(j, consumed);
      && ValidFragment(f)
      && |f| == 20 + |PieceOptions(j, consumed)| + PieceLength(j, consumed) <= j.mtu
      && OptionsOf(f) == PieceOptions(j, consumed)
      && View(f) == Piece(Ident(j.packet), Offset(j.packet) + consumed,
                          end < |Payload(j.packet)| || MoreFragments(j.packet), Payload(j.packet)[consumed..end])
  {
    hide Build, View, ValidFragment, Parse, HeaderLength, Flags, MoreFragments, CutLength, OptionsOf;
    var end := consumed + PieceLength(j, consumed);
    BuildMeaning(j.packet, PieceOptions(j, consumed), Offset(j.packet) + consumed,
                 end < |Payload(j.packet)| || MoreFragments(j.packet), Payload(j.packet)[consumed..end]);
  }

  /** The pieces from `consumed` on join to the rest of the packet. */
  lemma {:induction false} PiecesJoin(j: Job, consumed: nat)
    requires ValidJob(j) && consumed < |Payload(j.packet)| && consumed % 8 == 0
    ensures Join(Views(PiecesFrom(j, consumed)))
            == Some(Piece(Ident(j.packet), Offset(j.packet) + consumed, MoreFragments(j.packet),
                          Payload(j.packet)[consumed..]))
    decreases |Payload(j.packet)| - consumed
  {
    hide PieceAt, View, ValidFragment, PieceOptions, PieceLength, Payload, OptionsOf, Parse, HeaderLength, Flags,
      Offset, MoreFragments;
    PieceMeaning(j, consumed);
    var payload := Payload(j.packet);
    var end := consumed + PieceLength(j, consumed);
    var f := PieceAt(j, consumed);
    var rest := PiecesFrom(j, end);
    assert Views([f] + rest) == [View(f)] + Views(rest);
    if end == |payload| {
      assert payload[consumed..end] == payload[consumed..];
    } else {
      PiecesJoin(j, end);
      assert ([View(f)] + Views(rest))[1..] == Views(rest);
      assert |rest| > 0;
      assert payload[consumed..] == payload[consumed..end] + payload[end..];
    }
  }

  /** What holds of every packet cut from `p`, besides its place. */
  ghost predicate CutFrom(f: Packet, p: Packet, mtu: nat)
    requires Parse(p).Ok? && CopiedOptions(OptionsOf(p)).Ok?
  {
    && ValidFragment(f) && |f| <= mtu
    && |Payload(f)| > 0
    && (MoreFragments(f) ==> |Payload(f)| % 8 == 0)
    && CopiedOptions(OptionsOf(f)).Ok?
    && |CopiedOptions(OptionsOf(f)).value| <= |OptionsOf(f)|
    && 20 + |CopiedOptions(OptionsOf(f)).value| + Offset(f) + |Payload(f)| <= MAX_U16
    && OptionsOf(f) == (if Offset(f) == 0 then OptionsOf(p) else CopiedOptions(OptionsOf(p)).value)
  }

  ghost predicate CutJob?(j: Job) {
    && ValidJob(j)
    && (MoreFragments(j.packet) ==> |Payload(j.packet)| % 8 == 0)
    && CopiedOptions(OptionsOf(j.packet)) == Ok(j.copied)
  }

  lemma {:induction false} PieceCut(j: Job, consumed: nat)
    requires CutJob?(j) && consumed < |Payload(j.packet)| && consumed % 8 == 0
    ensures CutFrom(PieceAt(j, consumed), j.packet, j.mtu)
  {
    hide PieceAt, CopiedOptions, OptionsOf, Payload, Parse, HeaderLength, Flags, PieceLength, ValidFragment, Offset,
      MoreFragments;
    PieceMeaning(j, consumed);
    CopyingIsIdempotent(OptionsOf(j.packet));
    CopiedOptionsKeepFlagged(OptionsOf(PieceAt(j, consumed)));
  }

  lemma {:induction false} PiecesCut(j: Job, consumed: nat)
    requires CutJob?(j) && consumed <= |Payload(j.packet)|
    requires consumed < |Payload(j.packet)| ==> consumed % 8 == 0
    ensures forall i :: 0 <= i < |PiecesFrom(j, consumed)| ==> CutFrom(PiecesFrom(j, consumed)[i], j.packet, j.mtu)
    decreases |Payload(j.packet)| - consumed
  {
    hide PieceAt, CopiedOptions, OptionsOf, Payload, PieceLength, Offset, MoreFragments, CutFrom, Parse, HeaderLength;
    if consumed < |Payload(j.packet)| {
      PieceCut(j, consumed);
      PiecesCut(j, consumed + PieceLength(j, consumed));
    }
  }

  lemma {:induction false} CutJob(p: Packet, mtu: nat)
    requires Fragments(p, mtu).Ok? && |p| > mtu
    ensures Parse(p).Ok? && CopiedOptions(OptionsOf(p)).Ok?
    ensures ValidJob(Job(p, CopiedOptions(OptionsOf(p)).value, mtu))
    ensures CutJob?(Job(p, CopiedOptions(OptionsOf(p)).value, mtu))
    ensures |Payload(p)| > 0
    ensures HeaderVerifies(p) && !Reserved(p) && !DontFragment(p)
    ensures Fragments(p, mtu).value == PiecesFrom(Job(p, CopiedOptions(OptionsOf(p)).value, mtu), 0)
  {
    hide CopiedOptions, PiecesFrom, HeaderVerifies, HeaderLength;
    CopiedOptionsKeepFlagged(OptionsOf(p));
  }

  /**
   Every packet cut from one that is too long is a verifying fragment of at
   most `mtu` bytes with the RFC 791 options, and together, in order, they
   join to the packet given, even when that is itself a fragment.
   */
  lemma {:induction false} FragmentsReassemble(p: Packet, mtu: nat)
    requires Fragments(p, mtu).Ok? && |p| > mtu
    ensures Join(Views(Fragments(p, mtu).value)) == Some(View(p))
    ensures CopiedOptions(OptionsOf(p)).Ok?
    ensures forall i :: 0 <= i < |Fragments(p, mtu).value| ==> CutFrom(Fragments(p, mtu).value[i], p, mtu)
  {
    hide *;
    CutJob(p, mtu);
    var j := Job(p, CopiedOptions(OptionsOf(p)).value, mtu);
    PiecesCut(j, 0);
    PiecesJoin(j, 0);
    ViewOf(p);
    assert Payload(p)[0..] == Payload(p);
  }

  lemma {:induction false} ViewOf(p: Packet)
    requires Parse(p).Ok?
    ensures View(p) == Piece(Ident(p), Offset(p), MoreFragments(p), Payload(p))
  {
  }

  /** A packet that fits comes back alone and unchanged. */
  lemma {:induction false} FragmentsFit(p: Packet, mtu: nat)
    requires Fragments(p, mtu).Ok? && |p| <= mtu
    ensures Fragments(p, mtu).value == [p]
    ensures Join(Views([p])) == Some(View(p))
  {
    hide View, Parse, HeaderVerifies, Flags;
  }

  /** Cutting a produced fragment again succeeds at every legal MTU. */
  lemma {:induction false} RefragmentSucceeds(p: Packet, mtu: nat, f: Packet, smaller: nat)
    requires Parse(p).Ok? && CopiedOptions(OptionsOf(p)).Ok? && CutFrom(f, p, mtu)
    requires MIN_IPV4_MTU <= smaller <= MAX_U16
    ensures Fragments(f, smaller).Ok?
  {
    hide CopiedOptions, PiecesFrom, HeaderLength, OptionsOf, View;
  }

  /** What the cutter demands of a packet: a good header, and good options and offsets if it may ever have to be cut. */
  predicate Cuttable(p: Packet) {
    && Parse(p).Ok? && HeaderVerifies(p) && !Reserved(p)
    && (|p| <= MIN_IPV4_MTU || DontFragment(p) || CanCut(p))
  }

  predicate CanCut(p: Packet)
    requires HeaderLength(p).Ok?
  {
    var copied := CopiedOptions(OptionsOf(p));
    && copied.Ok?
    && (MoreFragments(p) ==> |Payload(p)| % 8 == 0)
    && (MoreFragments(p) || Offset(p) != 0 ==> |Payload(p)| > 0)
    && 20 + |copied.value| + Offset(p) + |Payload(p)| <= MAX_U16
  }

  ghost predicate HandledAt(p: Packet, mtu: nat) {
    Fragments(p, mtu).Ok? || Fragments(p, mtu) == Err(FragmentationNeeded)
  }

  /** Exactly these packets are cut, or refused for their DF bit alone, at every legal MTU. */
  lemma {:induction false} CuttableIff(p: Packet)
    ensures Cuttable(p) <==> forall mtu: nat :: MIN_IPV4_MTU <= mtu <= MAX_U16 ==> HandledAt(p, mtu)
  {
    hide CopiedOptions, PiecesFrom, HeaderLength, OptionsOf, View;
    assert HandledAt(p, MIN_IPV4_MTU) ==> Cuttable(p) by {
      CopyError(p);
    }
  }

  lemma {:induction false} CopyError(p: Packet)
    ensures HeaderLength(p).Ok? && CopiedOptions(OptionsOf(p)).Err? ==>
      CopiedOptions(OptionsOf(p)).error == InvalidPacket
  {
    if HeaderLength(p).Ok? {
      CopiedOptionsKeepFlagged(OptionsOf(p));
    }
  }

  lemma {:induction false} PlainIsCuttable(p: Packet)
    requires ValidFragment(p) && OptionsOf(p) == [] && View(p).Piece? && View(p).offset == 0 && !View(p).more
    ensures Cuttable(p)
  {
    hide HeaderVerifies, PiecesFrom, OptionsOf, Flags;
    ViewOf(p);
    hide View;
    PlainLength(p);
    NoOptions();
    hide CopiedOptions;
  }

  lemma {:induction false} PlainLength(p: Packet)
    requires Parse(p).Ok? && OptionsOf(p) == []
    ensures 20 + |Payload(p)| <= MAX_U16
  {
  }

  lemma {:induction false} NoOptions()
    ensures CopiedOptions([]) == Ok([])
  {
  }

  /** Any payload in a sealed packet without options can be cut at every legal MTU. */
  lemma {:induction false} PlainPacketsAreCut(header: Packet, payload: seq<byte>) returns (p: Packet)
    requires |header| >= 20 && 20 + |payload| <= MAX_U16
    ensures View(p) == Piece(Ident(header), 0, false, payload)
    ensures forall mtu: nat :: MIN_IPV4_MTU <= mtu <= MAX_U16 ==> Fragments(p, mtu).Ok?
  {
    hide *;
    p := Build(header, [], 0, false, payload);
    BuildMeaning(header, [], 0, false, payload);
    PlainIsCuttable(p);
    CuttableIff(p);
    forall mtu: nat | MIN_IPV4_MTU <= mtu <= MAX_U16
      ensures Fragments(p, mtu).Ok?
    {
      assert HandledAt(p, mtu);
      NotForDf(p, mtu);
    }
  }

  lemma {:induction false} NotForDf(p: Packet, mtu: nat)
    requires HandledAt(p, mtu) && ValidFragment(p)
    ensures Fragments(p, mtu).Ok?
  {
    hide PiecesFrom, HeaderVerifies, CopiedOptions, OptionsOf;
    CopyError(p);
  }

  /** Fragments can be cut again. */
  lemma {:induction false} FragmentsCuttable(p: Packet, mtu: nat)
    requires Fragments(p, mtu).Ok? && |p| > mtu
    ensures forall i :: 0 <= i < |Fragments(p, mtu).value| ==> Cuttable(Fragments(p, mtu).value[i])
  {
    FragmentsReassemble(p, mtu);
    CutJob(p, mtu);
    var fs := Fragments(p, mtu).value;
    hide Fragments, View, Join, ValidJob, PiecesFrom, CopiedOptions, Parse, HeaderLength, OptionsOf, HeaderVerifies,
      Flags;
    forall i | 0 <= i < |fs|
      ensures Cuttable(fs[i])
    {
      assert CutFrom(fs[i], p, mtu);
    }
  }

  /**
   Any produced fragment can be cut again, at any legal MTU, and the packets
   with its own fragments in its place still join to the original.
   */
  lemma {:induction false} RefragmentReassembles(p: Packet, mtu: nat, i: nat, smaller: nat)
    requires Fragments(p, mtu).Ok? && |p| > mtu && i < |Fragments(p, mtu).value|
    requires MIN_IPV4_MTU <= smaller <= MAX_U16
    ensures var fs := Fragments(p, mtu).value;
      && Fragments(fs[i], smaller).Ok?
      && Join(Views(fs[..i] + Fragments(fs[i], smaller).value + fs[i + 1..])) == Some(View(p))
  {
    var fs := Fragments(p, mtu).value;
    FragmentsReassemble(p, mtu);
    CutJob(p, mtu);
    hide Fragments, View, Join, CutFrom, ValidJob, PiecesFrom, CopiedOptions, Parse, HeaderLength, OptionsOf,
      HeaderVerifies, Flags;
    RefragmentSucceeds(p, mtu, fs[i], smaller);
    if |fs[i]| <= smaller {
      FragmentsFit(fs[i], smaller);
    } else {
      FragmentsReassemble(fs[i], smaller);
    }
    SpliceViews(fs, i, Fragments(fs[i], smaller).value);
  }

  lemma {:induction false} SpliceViews(fs: seq<Packet>, i: nat, gs: seq<Packet>)
    requires i < |fs| && Join(Views(gs)) == Some(View(fs[i]))
    ensures Join(Views(fs[..i] + gs + fs[i + 1..])) == Join(Views(fs))
  {
    hide View, Join;
    JoinSplice(Views(fs[..i]), View(fs[i]), Views(gs), Views(fs[i + 1..]));
    assert Views(fs) == Views(fs[..i]) + [View(fs[i])] + Views(fs[i + 1..]);
    assert Views(fs[..i] + gs + fs[i + 1..]) == Views(fs[..i]) + Views(gs) + Views(fs[i + 1..]);
  }

  /** A receiver's rebuilt packet: the first header over the joined payload. */
  function Rebuild(first: Packet, whole: Piece): Packet
    requires HeaderLength(first).Ok? && whole.Piece? && whole.offset < 0x10000
    requires |OptionsOf(first)| <= 40 && 20 + |OptionsOf(first)| + |whole.payload| <= MAX_U16
  {
    Build(first, OptionsOf(first), whole.offset, whole.more, whole.payload)
  }

  lemma {:induction false} RebuildIsSealed(p: Packet, f: Packet)
    requires Parse(p).Ok? && !Reserved(p) && !DontFragment(p)
    requires HeaderLength(f).Ok? && Ident(f) == Ident(p) && OptionsOf(f) == OptionsOf(p)
    requires |OptionsOf(p)| <= 40 && 20 + |OptionsOf(p)| + |Payload(p)| <= MAX_U16
    ensures Rebuild(f, View(p)) == Sealed(p)
  {
    UnsealedLike(p, f);
    var u := Unsealed(f, OptionsOf(p), Offset(p), MoreFragments(p), Payload(p));
    hide Unsealed, HeaderLength, Sealed, FixedHeader, FlagWord, Flags;
    SealedIgnoresChecksum(u, p);
  }

  /**
   Rebuilding from the fragments of a packet restores it byte for byte exactly
   when its checksum field was not 0xffff and its options were not dropped,
   as they are from a fragment that is not the first of its datagram.
   */
  lemma {:induction false} RebuildRestores(p: Packet, mtu: nat)
    requires Fragments(p, mtu).Ok? && |p| > mtu
    ensures var fs := Fragments(p, mtu).value;
      && |fs| > 0 && HeaderLength(fs[0]).Ok? && |OptionsOf(fs[0])| <= 40
      && 20 + |OptionsOf(fs[0])| + |Payload(p)| <= MAX_U16
      && (Rebuild(fs[0], View(p)) == p <==>
          Word(p[10], p[11]) != 0xffff && (Offset(p) == 0 || CopiedOptions(OptionsOf(p)) == Ok(OptionsOf(p))))
  {
    hide *;
    CutJob(p, mtu);
    var j := Job(p, CopiedOptions(OptionsOf(p)).value, mtu);
    FirstOf(j);
    var f := PieceAt(j, 0);
    PieceMeaning(j, 0);
    FragmentParses(f);
    ViewOf(f);
    ViewOf(p);
    RebuildOptions(p, f);
    SealingIsExact(p);
    if OptionsOf(f) == OptionsOf(p) {
      RebuildIsSealed(p, f);
    }
  }

  lemma {:induction false} FragmentParses(f: Packet)
    requires ValidFragment(f)
    ensures Parse(f).Ok? && HeaderLength(f).Ok?
  {
  }

  lemma {:induction false} RebuildOptions(p: Packet, f: Packet)
    requires Parse(p).Ok? && HeaderLength(f).Ok? && |OptionsOf(f)| <= 40
    requires 20 + |OptionsOf(f)| + |Payload(p)| <= MAX_U16 && View(p).offset < 0x10000
    ensures HeaderLength(Rebuild(f, View(p))).Ok? && OptionsOf(Rebuild(f, View(p))) == OptionsOf(f)
  {
    hide Build, HeaderLength, Flags, Payload, OptionsOf;
    BuildMeaning(f, OptionsOf(f), Offset(p), MoreFragments(p), Payload(p));
  }

  lemma {:induction false} FirstOf(j: Job)
    requires ValidJob(j) && |Payload(j.packet)| > 0
    ensures |PiecesFrom(j, 0)| > 0 && PiecesFrom(j, 0)[0] == PieceAt(j, 0)
    ensures PieceOptions(j, 0) == (if Offset(j.packet) == 0 then OptionsOf(j.packet) else j.copied)
    ensures |OptionsOf(j.packet)| <= 40 && |PieceOptions(j, 0)| <= 40
    ensures 20 + |OptionsOf(j.packet)| + |Payload(j.packet)| <= MAX_U16 && Offset(j.packet) < 0x10000
  {
    hide PieceAt, PieceLength, Flags;
  }

  /** Sealing depends on nothing but the bytes outside the checksum field. */
  lemma {:induction false} SealedIgnoresChecksum(u: Packet, p: Packet)
    requires |u| == |p| >= 20 && u[..10] == p[..10] && u[12..] == p[12..]
    requires HeaderLength(u).Ok? && HeaderLength(u) == HeaderLength(p)
    ensures Sealed(u) == Sealed(p)
  {
    hide HeaderLength, InternetChecksum;
    assert u == u[..10] + u[10..12] + u[12..] && p == p[..10] + p[10..12] + p[12..];
    assert WithWord(u, 10, 0) == u[..10] + [0, 0] + u[12..] == WithWord(p, 10, 0);
    var c := InternetChecksum(WithWord(u, 10, 0)[..HeaderLength(u).value]);
    assert WithWord(u, 10, c) == u[..10] + [Hi(c), Lo(c)] + u[12..] == WithWord(p, 10, c);
  }

  lemma {:induction false} SameFixedHeader(p: Packet, f: Packet, h: seq<byte>)
    requires Parse(p).Ok? && |f| >= 20 && Ident(f) == Ident(p)
    requires |p| <= MAX_U16 && Flags(p) < 0x4000
    requires h == FixedHeader(f, HeaderLength(p).value, |p|, Flags(p))
    ensures h[..10] == p[..10] && h[12..] == p[12..20]
  {
    hide FixedHeader;
    SameWords(h[2], h[3], p[2], p[3]);
    SameWords(h[6], h[7], p[6], p[7]);
    hide Parse, HeaderLength, Word, Flags;
    var a, b := Ident(f), Ident(p);
    assert forall i :: 0 <= i < 5 ==> a[i] == b[i];
    assert h[12..] == h[10..][2..] == f[10..20][2..] == f[12..20] == a[5..] == b[5..];
  }

  /** A fragment built with a packet's own fields is that packet up to its checksum. */
  lemma {:induction false} UnsealedLike(p: Packet, f: Packet)
    requires Parse(p).Ok? && !Reserved(p) && !DontFragment(p)
    requires |f| >= 20 && Ident(f) == Ident(p)
    ensures |Payload(p)| + 20 + |OptionsOf(p)| <= MAX_U16 && Offset(p) < 0x10000
    ensures var u := Unsealed(f, OptionsOf(p), Offset(p), MoreFragments(p), Payload(p));
      && |u| == |p| && u[..10] == p[..10] && u[12..] == p[12..]
  {
    hide FixedHeader, HeaderLength, Parse, Flags, FlagWord, Ident, Offset, MoreFragments, Reserved, DontFragment;
    FlagsRoundTrip(p);
    var n := HeaderLength(p).value;
    var u := Unsealed(f, OptionsOf(p), Offset(p), MoreFragments(p), Payload(p));
    SameFixedHeader(p, f, FixedHeader(f, n, |p|, Flags(p)));
    hide Unsealed;
    SliceSlice(u, 0, 0, 20);
    SliceSlice(u[..20], 0, 0, 10);
    SliceJoin(u, 12, 20, n);
    SliceJoin(p, 12, 20, n);
    assert u[12..20] == u[..20][12..];
  }

  lemma {:induction false} FlagsRoundTrip(p: Packet)
    requires |p| >= 20 && !Reserved(p) && !DontFragment(p)
    ensures Offset(p) < 0x10000 && Flags(p) < 0x4000 && FlagWord(Offset(p), MoreFragments(p)) == Flags(p)
  {
    hide Flags, FlagWord;
    FlagWordOf(Flags(p));
  }

  lemma {:induction false} FlagWordOf(w: int)
    requires 0 <= w < 0x10000 && w / 0x8000 % 2 == 0 && w / 0x4000 % 2 == 0
    ensures w < 0x4000 && FlagWord(w % 0x2000 * 8, w / 0x2000 % 2 == 1) == w
  {
    assert w < 0x4000;
  }

  lemma {:induction false} SameWords(a: byte, b: byte, c: byte, d: byte)
    requires Word(a, b) == Word(c, d)
    ensures a == c && b == d
  {
  }

  // The measure of the send loop.

  function Units(n: nat): (u: nat)
    ensures n == 0 <==> u == 0
  {
    (n + 7) / 8
  }

  /** What further cuts can still cost: one unit per possible cut, and the header. */
  function Potential(p: Packet): (n: nat)
    ensures n > 0
  {
    if Parse(p).Ok? then 62 * (Max(1, Units(|Payload(p)|)) - 1) + HeaderLength(p).value + 1 else 1
  }

  function TotalPotential(ps: seq<Packet>): (n: nat) {
    if |ps| == 0 then 0 else Potential(ps[0]) + TotalPotential(ps[1..])
  }

  lemma {:induction false} TotalPotentialConcat(ps: seq<Packet>, qs: seq<Packet>)
    ensures TotalPotential(ps + qs) == TotalPotential(ps) + TotalPotential(qs)
  {
    if |ps| == 0 {
      assert ps + qs == qs;
    } else {
      assert (ps + qs)[1..] == ps[1..] + qs;
      TotalPotentialConcat(ps[1..], qs);
    }
  }

  lemma {:induction false} PotentialOf(p: Packet)
    requires Parse(p).Ok? && |Payload(p)| > 0
    ensures Potential(p) == 62 * (Units(|Payload(p)|) - 1) + 21 + |OptionsOf(p)|
    ensures |p| == 20 + |OptionsOf(p)| + |Payload(p)|
  {
    hide Parse, HeaderLength, Units;
  }

  lemma {:induction false} UnitsSplit(rest: nat, n: nat)
    requires n <= rest && (n < rest ==> n % 8 == 0)
    ensures Units(rest) == Units(n) + Units(rest - n)
  {
  }

  lemma {:induction false} PiecePotential(j: Job, consumed: nat)
    requires ValidJob(j) && consumed < |Payload(j.packet)| && consumed % 8 == 0
    ensures Potential(PieceAt(j, consumed))
            == 62 * (Units(PieceLength(j, consumed)) - 1) + 21 + |PieceOptions(j, consumed)|
  {
    PieceMeaning(j, consumed);
    hide PieceAt, PieceLength, PieceOptions, Units, ValidJob, HeaderVerifies, Parse, HeaderLength, Flags;
  }

  lemma {:induction false} PiecesPotential(j: Job, consumed: nat)
    requires ValidJob(j) && consumed <= |Payload(j.packet)|
    requires consumed < |Payload(j.packet)| ==> consumed % 8 == 0
    ensures var left := |Payload(j.packet)| - consumed;
      TotalPotential(PiecesFrom(j, consumed)) <= 62 * Units(left) - (if left > 0 then 1 else 0)
    decreases |Payload(j.packet)| - consumed
  {
    hide PieceAt, OptionsOf, Parse, HeaderLength, Flags, PieceLength, Payload, Potential, Units, Offset, MoreFragments;
    if consumed < |Payload(j.packet)| {
      var n := PieceLength(j, consumed);
      PiecePotential(j, consumed);
      PiecesPotential(j, consumed + n);
      assert PiecesFrom(j, consumed)[1..] == PiecesFrom(j, consumed + n);
      UnitsSplit(|Payload(j.packet)| - consumed, n);
    }
  }

  lemma {:induction false} CutLowers(size: nat, mtu: nat, payload: nat, n: nat, options: nat, kept: nat, first: nat,
                                     rest: nat, before: nat)
    requires mtu < size == 20 + options + payload && 20 + kept + n <= mtu && kept <= options <= 40 && 0 < n <= payload
    requires Units(payload) == Units(n) + Units(payload - n)
    requires first == 62 * (Units(n) - 1) + 21 + kept
    requires rest <= 62 * Units(payload - n) - (if n < payload then 1 else 0)
    requires before == 62 * (Units(payload) - 1) + 21 + options
    ensures first + rest < before
  {
    hide Units;
  }

  /** Cutting strictly lowers the measure, even when one shorter packet comes out. */
  lemma {:induction false} FragmentsLowerPotential(p: Packet, mtu: nat)
    requires Fragments(p, mtu).Ok? && |p| > mtu
    ensures TotalPotential(Fragments(p, mtu).value) < Potential(p)
  {
    hide *;
    CutJob(p, mtu);
    var j := Job(p, CopiedOptions(OptionsOf(p)).value, mtu);
    FirstPiece(j);
    var n := PieceLength(j, 0);
    PiecePotential(j, 0);
    PiecesPotential(j, n);
    UnitsSplit(|Payload(p)|, n);
    PotentialOf(p);
    CutLowers(|p|, mtu, |Payload(p)|, n, |OptionsOf(p)|, |PieceOptions(j, 0)|,
              Potential(PieceAt(j, 0)), TotalPotential(PiecesFrom(j, n)), Potential(p));
  }

  lemma {:induction false} FirstPiece(j: Job)
    requires ValidJob(j) && |Payload(j.packet)| > 0
    ensures TotalPotential(PiecesFrom(j, 0))
            == Potential(PieceAt(j, 0)) + TotalPotential(PiecesFrom(j, PieceLength(j, 0)))
  {
    hide PieceAt, Potential, ValidJob, PieceLength, Payload, HeaderLength;
    assert PiecesFrom(j, 0)[1..] == PiecesFrom(j, PieceLength(j, 0));
  }
}
