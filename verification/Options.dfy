/**
 copied_ipv4_options of rust/porta-wire/src/mtu.rs: the options that RFC 791
 requires on every fragment, re-aligned and padded.
 */
module Options {
  import opened Bytes

  datatype MtuError = InvalidPacket | FragmentationNeeded | IcmpSuppressed | InvalidMtu

  predicate Copied?(kind: byte) {
    kind >= 128
  }

  /** Pads with no-operation bytes until the length agrees with `at` modulo four. */
  function Aligned(copied: seq<byte>, at: nat): (r: seq<byte>)
    ensures |r| == |copied| + (at - |copied|) % 4
    ensures |r| % 4 == at % 4
    ensures r[..|copied|] == copied
    ensures forall i :: |copied| <= i < |r| ==> r[i] == 1
    ensures |copied| <= at ==> |r| <= at
  {
    copied + seq((at - |copied|) % 4, _ => 1)
  }

  /** Zero-fills to a multiple of four. */
  function Padded(copied: seq<byte>): (r: seq<byte>)
    ensures |r| == (|copied| + 3) / 4 * 4
    ensures r[..|copied|] == copied
    ensures forall i :: |copied| <= i < |r| ==> r[i] == 0
  {
    copied + seq((|copied| + 3) / 4 * 4 - |copied|, _ => 0)
  }

  predicate AllZero(s: seq<byte>) {
    forall i :: 0 <= i < |s| ==> s[i] == 0
  }

  /** The scanning loop from `index`, with what has been copied so far. */
  function CopyFrom(options: seq<byte>, index: nat, copied: seq<byte>): Result<seq<byte>, MtuError>
    requires index <= |options|
    decreases |options| - index
  {
    if index == |options| then Ok(copied)
    else if options[index] == 0 then
      if AllZero(options[index..]) then Ok(copied) else Err(InvalidPacket)
    else if options[index] == 1 then CopyFrom(options, index + 1, copied)
    else if index + 1 == |options| then Err(InvalidPacket)
    else
      var length := options[index + 1];
      if length < 2 || index + length > |options| then Err(InvalidPacket)
      else
        CopyFrom(options, index + length,
                 if Copied?(options[index]) then Aligned(copied, index) + options[index..index + length] else copied)
  }

  function CopiedOptions(options: seq<byte>): Result<seq<byte>, MtuError> {
    var copied := CopyFrom(options, 0, []);
    if copied.Err? then copied else Ok(Padded(copied.value))
  }

  /** One option of the scan. */
  lemma {:induction false} CopyStep(options: seq<byte>, index: nat, copied: seq<byte>)
    requires index < |options|
    ensures options[index] == 0 ==>
      CopyFrom(options, index, copied) == if AllZero(options[index..]) then Ok(copied) else Err(InvalidPacket)
    ensures options[index] == 1 ==> CopyFrom(options, index, copied) == CopyFrom(options, index + 1, copied)
    ensures (options[index] > 1 &&
             (index + 1 == |options| || options[index + 1] < 2 || index + options[index + 1] > |options|)) ==>
      CopyFrom(options, index, copied) == Err(InvalidPacket)
    ensures (options[index] > 1 && index + 1 < |options| && options[index + 1] >= 2 &&
             index + options[index + 1] <= |options|) ==>
      CopyFrom(options, index, copied) == CopyFrom(options, index + options[index + 1],
        if Copied?(options[index]) then Aligned(copied, index) + options[index..index + options[index + 1]] else copied)
  {
  }

  lemma {:induction false} CopyEnd(options: seq<byte>, copied: seq<byte>)
    ensures CopyFrom(options, |options|, copied) == Ok(copied)
  {
  }

  lemma {:induction false} AllZeroFrom(options: seq<byte>, index: nat)
    requires index <= |options|
    ensures AllZero(options[index..]) <==> forall i :: index <= i < |options| ==> options[i] == 0
  {
    if AllZero(options[index..]) {
      assert forall i :: index <= i < |options| ==> options[i] == options[index..][i - index];
    }
  }

  /** The alignment loop: no-operations until the position fits modulo four. */
  method AlignTo(copied: seq<byte>, index: nat) returns (r: seq<byte>)
    ensures r == Aligned(copied, index)
  {
    r := copied;
    while |r| % 4 != index % 4
      invariant |copied| <= |r| <= |Aligned(copied, index)|
      invariant r == Aligned(copied, index)[..|r|]
      decreases |Aligned(copied, index)| - |r|
    {
      r := r + [1];
    }
  }

  /** The loops of copied_ipv4_options. */
  method CopyOptions(options: seq<byte>) returns (r: Result<seq<byte>, MtuError>)
    ensures r == CopiedOptions(options)
  {
    hide CopyFrom, Aligned, AllZero, Padded, Copied?;
    var copied: seq<byte> := [];
    var index := 0;
    while index < |options|
      invariant 0 <= index <= |options|
      invariant CopyFrom(options, 0, []) == CopyFrom(options, index, copied)
    {
      CopyStep(options, index, copied);
      if options[index] == 0 {
        AllZeroFrom(options, index);
        if exists i :: index <= i < |options| && options[i] != 0 {
          return Err(InvalidPacket);
        }
        return Ok(Padded(copied));
      } else if options[index] == 1 {
        index := index + 1;
      } else {
        if index + 1 >= |options| {
          return Err(InvalidPacket);
        }
        var length := options[index + 1];
        if length < 2 || index + length > |options| {
          return Err(InvalidPacket);
        }
        if Copied?(options[index]) {
          copied := AlignTo(copied, index);
          copied := copied + options[index..index + length];
        }
        index := index + length;
      }
    }
    CopyEnd(options, copied);
    return Ok(Padded(copied));
  }

  // What the options mean: the multi-byte options and where they stand.

  /** A multi-byte option and its position modulo four. */
  datatype Placed = Placed(at: nat, bytes: seq<byte>)

  ghost predicate WellFormed(o: Placed) {
    o.at < 4 && |o.bytes| >= 2 && o.bytes[0] >= 2 && o.bytes[1] == |o.bytes|
  }

  ghost predicate AllWellFormed(os: seq<Placed>) {
    forall i :: 0 <= i < |os| ==> WellFormed(os[i])
  }

  /** Every multi-byte option from `index` on, or None when the area is malformed. */
  ghost function Scan(options: seq<byte>, index: nat): (r: Option<seq<Placed>>)
    requires index <= |options|
    ensures r.Some? ==> AllWellFormed(r.value)
    decreases |options| - index
  {
    if index == |options| then Some([])
    else if options[index] == 0 then if AllZero(options[index..]) then Some([]) else None
    else if options[index] == 1 then Scan(options, index + 1)
    else if index + 1 == |options| || options[index + 1] < 2 || index + options[index + 1] > |options| then None
    else
      var next := index + options[index + 1];
      var rest := Scan(options, next);
      if rest.None? then None else Some([Placed(index % 4, options[index..next])] + rest.value)
  }

  ghost function Flagged(os: seq<Placed>): (r: seq<Placed>)
    requires AllWellFormed(os)
    ensures AllWellFormed(r) && forall i :: 0 <= i < |r| ==> Copied?(r[i].bytes[0])
  {
    if os == [] then []
    else (if Copied?(os[0].bytes[0]) then [os[0]] else []) + Flagged(os[1..])
  }

  /** Placing options one after another, each at its own alignment. */
  ghost function Layout(os: seq<Placed>, copied: seq<byte>): (r: seq<byte>)
    ensures |copied| <= |r| && r[..|copied|] == copied
  {
    if os == [] then copied else
    var next := Aligned(copied, os[0].at) + os[0].bytes;
    assert next[..|copied|] == Aligned(copied, os[0].at)[..|copied|];
    var r := Layout(os[1..], next);
    assert r[..|copied|] == r[..|next|][..|copied|];
    r
  }

  /** The scanning loop lays out exactly the flagged options. */
  lemma {:induction false} CopyIsLayout(options: seq<byte>, index: nat, copied: seq<byte>)
    requires index <= |options|
    ensures Scan(options, index).None? <==> CopyFrom(options, index, copied).Err?
    ensures Scan(options, index).None? ==> CopyFrom(options, index, copied) == Err(InvalidPacket)
    ensures Scan(options, index).Some? ==>
      CopyFrom(options, index, copied) == Ok(Layout(Flagged(Scan(options, index).value), copied))
    decreases |options| - index
  {
    if index == |options| || options[index] == 0 {
    } else if options[index] == 1 {
      CopyIsLayout(options, index + 1, copied);
    } else if index + 1 == |options| || options[index + 1] < 2 || index + options[index + 1] > |options| {
    } else {
      var next := index + options[index + 1];
      var head := options[index..next];
      var grown := if Copied?(options[index]) then Aligned(copied, index) + head else copied;
      CopyIsLayout(options, next, grown);
      if Scan(options, next).Some? {
        var rest := Scan(options, next).value;
        var all := [Placed(index % 4, head)] + rest;
        assert Scan(options, index) == Some(all) && all[1..] == rest;
        if Copied?(options[index]) {
          AlignedModulo(copied, index);
          var flagged := Flagged(all);
          assert flagged == [all[0]] + Flagged(rest);
          assert flagged[1..] == Flagged(rest);
        } else {
          assert Flagged(all) == Flagged(rest);
        }
      }
    }
  }

  lemma {:induction false} AlignedModulo(copied: seq<byte>, at: nat)
    ensures Aligned(copied, at) == Aligned(copied, at % 4)
  {
    Modulo(at, |copied|);
  }

  lemma {:induction false} Modulo(at: nat, length: nat)
    ensures (at - length) % 4 == (at % 4 - length) % 4
  {
    var a, b := (at - length) % 4, (at % 4 - length) % 4;
    assert at - length == 4 * ((at - length) / 4) + a && at % 4 - length == 4 * ((at % 4 - length) / 4) + b;
    assert at == 4 * (at / 4) + at % 4;
  }

  /** What is copied never overtakes what has been scanned. */
  lemma {:induction false} CopyLength(options: seq<byte>, index: nat, copied: seq<byte>)
    requires index <= |options| && |copied| <= index
    ensures CopyFrom(options, index, copied).Ok? ==> |CopyFrom(options, index, copied).value| <= |options|
    decreases |options| - index
  {
    if index == |options| || options[index] == 0 {
    } else if options[index] == 1 {
      CopyLength(options, index + 1, copied);
    } else if index + 1 == |options| || options[index + 1] < 2 || index + options[index + 1] > |options| {
    } else {
      var length := options[index + 1];
      CopyLength(options, index + length,
                 if Copied?(options[index]) then Aligned(copied, index) + options[index..index + length] else copied);
    }
  }

  /** No-operation bytes are skipped. */
  lemma {:induction false} ScanSkips(options: seq<byte>, index: nat, to: nat)
    requires index <= to <= |options|
    requires forall i :: index <= i < to ==> options[i] == 1
    ensures Scan(options, index) == Scan(options, to)
    decreases |options| - index
  {
    if index < to {
      ScanSkips(options, index + 1, to);
    }
  }

  lemma {:induction false} ScanStep(options: seq<byte>, index: nat, o: Placed)
    requires WellFormed(o) && index % 4 == o.at
    requires index + |o.bytes| <= |options| && options[index..index + |o.bytes|] == o.bytes
    requires Scan(options, index + |o.bytes|).Some?
    ensures Scan(options, index) == Some([o] + Scan(options, index + |o.bytes|).value)
  {
    assert options[index] == options[index..index + |o.bytes|][0];
    assert options[index + 1] == options[index..index + |o.bytes|][1];
  }

  lemma {:induction false} PrefixOfPadded(a: seq<byte>, b: seq<byte>)
    requires |a| <= |b| && b[..|a|] == a
    ensures Padded(b)[..|a|] == a
  {
    assert Padded(b)[..|a|] == Padded(b)[..|b|][..|a|];
  }

  /** One option behind no-operation bytes and in front of what scans to `rest`. */
  lemma {:induction false} ScanAligned(whole: seq<byte>, from: nat, start: nat, o: Placed, rest: seq<Placed>)
    requires WellFormed(o) && start % 4 == o.at
    requires from <= start && start + |o.bytes| <= |whole|
    requires forall i :: from <= i < start ==> whole[i] == 1
    requires whole[start..start + |o.bytes|] == o.bytes
    requires Scan(whole, start + |o.bytes|) == Some(rest)
    ensures Scan(whole, from) == Some([o] + rest)
  {
    ScanStep(whole, start, o);
    ScanSkips(whole, from, start);
  }

  lemma {:induction false} AlignedPieces(whole: seq<byte>, copied: seq<byte>, o: Placed)
    requires var next := Aligned(copied, o.at) + o.bytes; |next| <= |whole| && whole[..|next|] == next
    ensures var start := |Aligned(copied, o.at)|;
      && (forall i :: |copied| <= i < start ==> whole[i] == 1)
      && whole[start..start + |o.bytes|] == o.bytes
  {
    var next := Aligned(copied, o.at) + o.bytes;
    assert forall i :: 0 <= i < |next| ==> whole[i] == whole[..|next|][i] == next[i];
  }

  lemma {:induction false} ScanPadding(copied: seq<byte>)
    ensures Scan(Padded(copied), |copied|) == Some([])
  {
    assert AllZero(Padded(copied)[|copied|..]);
  }

  /** Scanning a padded layout recovers the options that were laid out. */
  lemma {:induction false} AlignedStart(copied: seq<byte>, o: Placed)
    requires WellFormed(o)
    ensures |copied| <= |Aligned(copied, o.at)| && |Aligned(copied, o.at)| % 4 == o.at
  {
  }

  lemma {:induction false} ScanOfLayout(os: seq<Placed>, copied: seq<byte>)
    requires AllWellFormed(os)
    ensures Scan(Padded(Layout(os, copied)), |copied|) == Some(os)
    decreases |os|
  {
    if os == [] {
      ScanPadding(copied);
    } else {
      var next := Aligned(copied, os[0].at) + os[0].bytes;
      ScanOfLayout(os[1..], next);
      assert Layout(os, copied) == Layout(os[1..], next);
      AlignedStart(copied, os[0]);
      hide Layout, Scan, Padded, Aligned;
      PrefixOfPadded(next, Layout(os, copied));
      AlignedPieces(Padded(Layout(os, copied)), copied, os[0]);
      ScanAligned(Padded(Layout(os, copied)), |copied|, |Aligned(copied, os[0].at)|, os[0], os[1..]);
      assert os == [os[0]] + os[1..];
    }
  }

  /** Laying out the flagged options of a list already flagged keeps all of them. */
  lemma {:induction false} FlaggedFlagged(os: seq<Placed>)
    requires AllWellFormed(os) && forall i :: 0 <= i < |os| ==> Copied?(os[i].bytes[0])
    ensures Flagged(os) == os
  {
    if os != [] {
      FlaggedFlagged(os[1..]);
      assert os == [os[0]] + os[1..];
    }
  }

  /**
   The copied area is well formed, no longer than the original, and holds
   exactly the copy-flagged options: byte-identical, in order, and at the
   same alignment modulo four. Malformed areas are the only ones rejected.
   */
  lemma {:induction false} CopiedOptionsKeepFlagged(options: seq<byte>)
    requires |options| % 4 == 0
    ensures CopiedOptions(options).Ok? <==> Scan(options, 0).Some?
    ensures CopiedOptions(options).Err? ==> CopiedOptions(options).error == InvalidPacket
    ensures CopiedOptions(options).Ok? ==>
      && |CopiedOptions(options).value| <= |options|
      && |CopiedOptions(options).value| % 4 == 0
      && Scan(CopiedOptions(options).value, 0) == Some(Flagged(Scan(options, 0).value))
  {
    hide Scan, CopyFrom, Flagged, Layout, AllWellFormed;
    CopyIsLayout(options, 0, []);
    CopyLength(options, 0, []);
    if Scan(options, 0).Some? {
      ScanOfLayout(Flagged(Scan(options, 0).value), []);
    }
  }

  /** Copying is idempotent: a fragment's options are copied unchanged. */
  lemma {:induction false} CopyingIsIdempotent(options: seq<byte>)
    requires |options| % 4 == 0
    ensures CopiedOptions(options).Ok? ==>
      CopiedOptions(CopiedOptions(options).value) == CopiedOptions(options)
  {
    if CopiedOptions(options).Ok? {
      var copied := CopiedOptions(options).value;
      CopiedOptionsKeepFlagged(options);
      var flagged := Flagged(Scan(options, 0).value);
      CopyIsLayout(options, 0, []);
      CopyIsLayout(copied, 0, []);
      FlaggedFlagged(flagged);
    }
  }
}
