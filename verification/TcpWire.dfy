/**
 * The octets that tcp_options.c puts on the wire, spelled out: kinds, lengths,
 * network byte order and padding in a 40-byte option area.
 */
module TcpWire {
  import opened Basics
  import opened SequenceNumbers
  import opened TcpOptions

  /** A 32-bit number, most significant octet first. */
  function Net32(x: u32): seq<byte> { [x / 16777216, x / 65536 % 256, x / 256 % 256, x % 256] }

  function NetBlocks(blocks: seq<Block>): seq<byte> {
    if blocks == [] then []
    else NetBlocks(blocks[..|blocks| - 1]) + Net32(blocks[|blocks| - 1].left) + Net32(blocks[|blocks| - 1].right)
  }

  lemma BigIsNet(x: u32)
    ensures Big(x) == Net32(x)
  {
  }

  lemma {:induction false} BlocksAreNet(blocks: seq<Block>)
    ensures AllBlockBytes(blocks) == NetBlocks(blocks)
    decreases |blocks|
  {
    if blocks != [] {
      var front, last := blocks[..|blocks| - 1], blocks[|blocks| - 1];
      BlocksAreNet(front);
      BigIsNet(last.left);
      BigIsNet(last.right);
      assert AllBlockBytes(blocks) == AllBlockBytes(front) + BlockBytes(last);
      Assoc(AllBlockBytes(front), Net32(last.left), Net32(last.right));
    }
  }

  // ------------------------------------------------------------------- groups

  /** A group that fits comes before what fits behind it. */
  lemma FitBytes(group: seq<Token>, left: seq<seq<Token>>, room: int, bytes: seq<byte>)
    requires AllLegal(group) && Groups(left) && bytes == EncodeAll(group)
    ensures Groups([group] + left)
    ensures EncodeAll(Fit([group] + left, room)) ==
              if |bytes| > room then [] else bytes + EncodeAll(Fit(left, room - |bytes|))
  {
    FitCons(group, left, room);
    hide Fit, EncodeAll, Encode;
    if |bytes| <= room { EncodeConcat(group, Fit(left, room - |bytes|)); } else { NoTokens(); }
  }

  lemma NoTokens()
    ensures EncodeAll([]) == []
  {
  }

  lemma FitNothing(room: int)
    ensures EncodeAll(Fit([], room)) == []
  {
  }

  lemma {:induction false} NopOctets(k: nat)
    ensures EncodeAll(Nops(k)) == seq(k, _ => 1)
    decreases k
  {
    if k > 0 {
      assert Nops(k)[1..] == Nops(k - 1);
      NopOctets(k - 1);
      assert seq(k, _ => 1) == [1] + seq(k - 1, _ => 1);
    }
  }

  /** What is written: what fits, and no-operations up to a multiple of four. */
  lemma WrittenBytes(groups: seq<seq<Token>>, bytes: seq<byte>)
    requires Groups(groups) && EncodeAll(Fit(groups, 40)) == bytes && |bytes| <= 40
    ensures EncodeAll(Written(groups, 40)) == bytes + seq((4 - |bytes| % 4) % 4, _ => 1)
  {
    FitFits(groups, 40);
    var pad := PadLength(|bytes|, 40);
    assert pad == (4 - |bytes| % 4) % 4;
    assert Written(groups, 40) == Fit(groups, 40) + Nops(pad);
    hide Fit, EncodeAll, Nops, Written;
    EncodeConcat(Fit(groups, 40), Nops(pad));
    NopOctets(pad);
  }

  /** The encodings of the single groups. */
  lemma GroupOctets(mss: u16, wscale: byte, tsVal: u32, tsEcr: u32)
    ensures AllLegal([MssToken(mss)]) && EncodeAll([MssToken(mss)]) == [2, 4, mss / 256, mss % 256]
    ensures AllLegal([Tlv(SACK_PERM, [])]) && EncodeAll([Tlv(SACK_PERM, [])]) == [4, 2]
    ensures AllLegal([TimeToken(tsVal, tsEcr)]) && EncodeAll([TimeToken(tsVal, tsEcr)]) == [8, 10] + (Net32(tsVal) + Net32(tsEcr))
    ensures AllLegal([Nop, ScaleToken(wscale)]) && EncodeAll([Nop, ScaleToken(wscale)]) == [1, 3, 3, wscale]
  {
    GroupLengths(mss, wscale, tsVal, tsEcr, []);
    BigIsNet(tsVal);
    BigIsNet(tsEcr);
    hide Big, EncodeAll;
  }

  // ---------------------------------------------------------------------- SYN

  lemma ScaleBytes(room: int, wscale: byte)
    requires room >= 4
    ensures EncodeAll(Fit(ScaleOn(wscale), room)) == [1, 3, 3, wscale]
  {
    GroupOctets(0, wscale, 0, 0);
    assert ScaleOn(wscale) == [[Nop, ScaleToken(wscale)]] + [];
    hide EncodeAll, Fit;
    FitBytes([Nop, ScaleToken(wscale)], [], room, [1, 3, 3, wscale]);
    FitNothing(room - 4);
  }

  function TimeOctets(timestamps: bool, tsVal: u32, tsEcr: u32): seq<byte> {
    if timestamps then [8, 10] + (Net32(tsVal) + Net32(tsEcr)) else []
  }

  lemma TimeBytes(room: int, wscale: byte, timestamps: bool, tsVal: u32, tsEcr: u32)
    requires room >= 14
    ensures EncodeAll(Fit(TimeOn(wscale, timestamps, tsVal, tsEcr), room)) == TimeOctets(timestamps, tsVal, tsEcr) + [1, 3, 3, wscale]
  {
    GroupOctets(0, wscale, tsVal, tsEcr);
    if timestamps {
      hide EncodeAll, Fit;
      FitBytes([TimeToken(tsVal, tsEcr)], ScaleOn(wscale), room, [8, 10] + (Net32(tsVal) + Net32(tsEcr)));
      ScaleBytes(room - 10, wscale);
    } else {
      assert TimeOn(wscale, timestamps, tsVal, tsEcr) == ScaleOn(wscale);
      hide EncodeAll, Fit;
      ScaleBytes(room, wscale);
    }
  }

  lemma PermBytes(room: int, wscale: byte, sackPerm: bool, timestamps: bool, tsVal: u32, tsEcr: u32)
    requires room >= 16
    ensures EncodeAll(Fit(PermOn(wscale, sackPerm, timestamps, tsVal, tsEcr), room)) ==
              (if sackPerm then [4, 2] else []) + (TimeOctets(timestamps, tsVal, tsEcr) + [1, 3, 3, wscale])
  {
    GroupOctets(0, wscale, tsVal, tsEcr);
    hide EncodeAll, Fit, TimeOn, TimeOctets;
    if sackPerm {
      FitBytes([Tlv(SACK_PERM, [])], TimeOn(wscale, timestamps, tsVal, tsEcr), room, [4, 2]);
      TimeBytes(room - 2, wscale, timestamps, tsVal, tsEcr);
    } else {
      assert PermOn(wscale, sackPerm, timestamps, tsVal, tsEcr) == TimeOn(wscale, timestamps, tsVal, tsEcr);
      TimeBytes(room, wscale, timestamps, tsVal, tsEcr);
      var rest := TimeOctets(timestamps, tsVal, tsEcr) + [1, 3, 3, wscale];
      assert [] + rest == rest;
    }
  }

  /** The options of a SYN, octet by octet, with their padding. */
  lemma SynOnTheWire(mss: u16, wscale: byte, sackPerm: bool, timestamps: bool, tsVal: u32, tsEcr: u32)
    ensures EncodeAll(Written(SynGroups(mss, wscale, sackPerm, timestamps, tsVal, tsEcr), 40)) ==
              [2, 4, mss / 256, mss % 256]
              + ((if sackPerm then [4, 2] else [])
                 + ((if timestamps then [8, 10] + (Net32(tsVal) + Net32(tsEcr)) else []) + [1, 3, 3, wscale]))
              + (if sackPerm != timestamps then [1, 1] else [])
  {
    GroupOctets(mss, wscale, tsVal, tsEcr);
    hide EncodeAll, Fit, PermOn, Written;
    var rest := PermOn(wscale, sackPerm, timestamps, tsVal, tsEcr);
    FitBytes([MssToken(mss)], rest, 40, [2, 4, mss / 256, mss % 256]);
    PermBytes(36, wscale, sackPerm, timestamps, tsVal, tsEcr);
    var bytes := EncodeAll(Fit(SynGroups(mss, wscale, sackPerm, timestamps, tsVal, tsEcr), 40));
    WrittenBytes(SynGroups(mss, wscale, sackPerm, timestamps, tsVal, tsEcr), bytes);
    var pad := (4 - |bytes| % 4) % 4;
    assert pad == if sackPerm != timestamps then 2 else 0;
    assert seq(pad, _ => 1 as byte) == if sackPerm != timestamps then [1, 1] else [];
  }

  // --------------------------------------------------------------------- data

  lemma SackOctets(blocks: seq<Block>)
    requires |blocks| <= 4
    ensures AllLegal([Nop, Nop, SackToken(blocks)])
    ensures EncodeAll([Nop, Nop, SackToken(blocks)]) == [1, 1, 5, 2 + 8 * |blocks|] + NetBlocks(blocks)
  {
    hide EncodeAll, AllBlockBytes, NetBlocks, Encode, SackToken;
    GroupLengths(0, 0, 0, 0, blocks);
    SackOne(blocks, 2 + 8 * |blocks|);
    Assoc([1, 1], [5, 2 + 8 * |blocks|], NetBlocks(blocks));
    assert [1, 1] + [5, 2 + 8 * |blocks|] == [1, 1, 5, 2 + 8 * |blocks|];
    SackLegal(blocks);
  }

  lemma SackOne(blocks: seq<Block>, n: byte)
    requires n == 2 + 8 * |blocks| && |blocks| <= 4
    ensures Legal(SackToken(blocks)) && Encode(SackToken(blocks)) == [5, n] + NetBlocks(blocks)
  {
    BlocksAreNet(blocks);
    hide AllBlockBytes, NetBlocks;
  }

  lemma SackLegal(blocks: seq<Block>)
    requires |blocks| <= 4
    ensures AllLegal([Nop, Nop, SackToken(blocks)])
  {
    hide AllBlockBytes;
  }

  lemma SackBytes(room: int, blocks: seq<Block>)
    requires room >= 0
    ensures var k := Min(|blocks|, 4);
            EncodeAll(Fit(SackOn(blocks), room)) ==
              if blocks == [] || 4 + 8 * k > room then [] else [1, 1, 5, 2 + 8 * k] + NetBlocks(blocks[..k])
    ensures var n := |EncodeAll(Fit(SackOn(blocks), room))|; n <= room && n % 4 == 0
  {
    var clipped := Clipped(blocks);
    SackOctets(clipped);
    BlocksAreNet(clipped);
    hide EncodeAll, Fit, NetBlocks, AllBlockBytes;
    if blocks == [] {
      FitNothing(room);
    } else {
      var bytes := [1, 1, 5, 2 + 8 * |clipped|] + NetBlocks(clipped);
      assert SackOn(blocks) == [[Nop, Nop, SackToken(clipped)]] + [];
      FitBytes([Nop, Nop, SackToken(clipped)], [], room, bytes);
      if |bytes| <= room { FitNothing(room - |bytes|); }
    }
  }

  /** The options of a data segment: timestamps, and the first four SACK blocks if they fit. */
  lemma DataOnTheWire(timestamps: bool, tsVal: u32, tsEcr: u32, blocks: seq<Block>)
    ensures var k := Min(|blocks|, 4);
            EncodeAll(Written(DataGroups(timestamps, tsVal, tsEcr, blocks), 40)) ==
              (if timestamps then [1, 1, 8, 10] + (Net32(tsVal) + Net32(tsEcr)) else [])
              + (if blocks == [] || (timestamps && k == 4) then [] else [1, 1, 5, 2 + 8 * k] + NetBlocks(blocks[..k]))
  {
    var groups := DataGroups(timestamps, tsVal, tsEcr, blocks);
    hide EncodeAll, Fit, SackOn, NetBlocks, Written;
    PaddedTime(tsVal, tsEcr);
    var head := if timestamps then [1, 1, 8, 10] + (Net32(tsVal) + Net32(tsEcr)) else [];
    var room := 40 - |head|;
    SackBytes(room, blocks);
    var tail := EncodeAll(Fit(SackOn(blocks), room));
    if timestamps {
      FitBytes([Nop, Nop, TimeToken(tsVal, tsEcr)], SackOn(blocks), 40, head);
    } else {
      assert groups == SackOn(blocks) && [] + tail == tail;
    }
    hide Net32, DataGroups;
    AlignedBytes(groups, head + tail);
  }

  lemma AlignedBytes(groups: seq<seq<Token>>, bytes: seq<byte>)
    requires Groups(groups) && EncodeAll(Fit(groups, 40)) == bytes && |bytes| <= 40 && |bytes| % 4 == 0
    ensures EncodeAll(Written(groups, 40)) == bytes
  {
    hide EncodeAll, Fit, Written;
    WrittenBytes(groups, bytes);
    assert bytes + [] == bytes;
  }

  lemma PaddedTime(tsVal: u32, tsEcr: u32)
    ensures AllLegal([Nop, Nop, TimeToken(tsVal, tsEcr)])
    ensures EncodeAll([Nop, Nop, TimeToken(tsVal, tsEcr)]) == [1, 1, 8, 10] + (Net32(tsVal) + Net32(tsEcr))
  {
    GroupLengths(0, 0, tsVal, tsEcr, []);
    BigIsNet(tsVal);
    BigIsNet(tsEcr);
    hide Big, EncodeAll;
  }
}
