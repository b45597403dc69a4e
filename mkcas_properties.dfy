/** What the bytes of one `mkcas` invocation look like, type by type, stated
    over the specification function `MkCas.Encoding`. */
module MkCasProperties {
  import opened MkCas

  /** The two bytes write_word emits for a 16-bit address. */
  function Word(w: int): seq<Byte>
    requires 0 <= w <= MaxAddr
  {
    WordBytes(w).value
  }

  /** write_word emits `w & 0xff` then `w >> 8` exactly for the 16-bit
      values, and any two bytes read back as a word are what write_word
      emits for that word. */
  lemma {:induction false} WordRoundTrip(lo: Byte, hi: Byte)
    ensures 0 <= WordValue(lo, hi) <= MaxAddr
    ensures WordBytes(WordValue(lo, hi)) == Some([lo, hi])
  {
    var w := WordValue(lo, hi);
    assert w / 256 == hi && w % 256 == lo by {
      assert w == hi * 256 + lo;
    }
  }

  /** `name[:6].ljust(6).encode("ascii")` succeeds exactly when the first
      six characters (or all of them, if fewer) are ASCII, and then holds
      those characters followed by spaces. */
  lemma {:induction false} NameFieldSpec(name: string)
    ensures NameField(name).Some? <==> (forall i :: 0 <= i < |name| && i < 6 ==> name[i] as int < 128)
    ensures NameField(name).Some? ==>
              forall i :: 0 <= i < 6 ==> NameField(name).value[i] == if i < |name| then name[i] as int else 0x20
  {
    var shown := if |name| <= 6 then name else name[..6];
    var padded := shown + seq(6 - |shown|, _ => ' ');
    assert forall i :: 0 <= i < 6 ==> padded[i] == if i < |name| then name[i] else ' ';
  }

  /** A name of 6 characters or more whose first six are ASCII is truncated
      to those six. */
  lemma {:induction false} NameTruncated(name: string)
    requires |name| >= 6 && forall i :: 0 <= i < 6 ==> name[i] as int < 128
    ensures NameField(name) == Some(AsciiBytes(name[..6]))
  {
    NameFieldSpec(name);
    assert IsAscii(name[..6]);
    var field := NameField(name).value;
    var expected := AsciiBytes(name[..6]);
    forall i | 0 <= i < 6
      ensures field[i] == expected[i]
    {
      assert name[..6][i] == name[i];
    }
    assert field == expected;
  }

  /** A shorter ASCII name is right-padded with spaces to exactly 6 bytes. */
  lemma {:induction false} NamePadded(name: string)
    requires |name| < 6 && IsAscii(name)
    ensures NameField(name) == Some(AsciiBytes(name) + Fill(0x20, 6 - |name|))
  {
    NameFieldSpec(name);
    var field := NameField(name).value;
    var named := AsciiBytes(name);
    var expected := named + Fill(0x20, 6 - |name|);
    forall i | 0 <= i < 6
      ensures field[i] == expected[i]
    {
      if i < |name| {
        assert expected[i] == named[i];
      } else {
        assert expected[i] == Fill(0x20, 6 - |name|)[i - |name|];
      }
    }
    assert field == expected;
  }

  /** A non-ASCII character among the first six makes the name encoding
      fail: nothing is converted or dropped silently. */
  lemma {:induction false} NameRejectsNonAscii(name: string, i: nat)
    requires i < |name| && i < 6 && name[i] as int >= 128
    ensures NameField(name).None?
  {
    NameFieldSpec(name);
  }

  /** Characters after the sixth are cut off before the encoding, so they
      neither appear in the field nor make it fail. */
  lemma {:induction false} NameOnlyFirstSix(name: string)
    requires |name| > 6
    ensures NameField(name) == NameField(name[..6])
  {
    assert name[..6][..6] == name[..6];
  }

  /** The ten bytes of TYPE_BLOCK: 0xD0 for binary, 0xD3 for basic, 0xEA for
      ascii. */
  lemma {:induction false} TypeBlockFill(kind: Kind)
    requires HasHeader(kind)
    ensures TypeBlock(kind) == Fill(FillByte(kind), 10)
  {
    assert TypeBlock(kind) == Fill(FillByte(kind), 10);
  }

  /** Every invocation's output, of every type and on every error path,
      starts with the sync marker. */
  lemma {:induction false} StartsWithMarker(kind: Kind, data: seq<Byte>, name: string, addr: int, exec: int)
    ensures var out := Encoding(kind, data, name, addr, exec).out;
            |out| >= 8 && out[..8] == [0x1F, 0xA6, 0xDE, 0xBA, 0xCC, 0x13, 0x7D, 0x74]
  {
  }

  /** The header of the three typed formats: the marker, ten copies of the
      type's fill byte and the 6-byte name, at offsets 0, 8 and 18. The
      binary branch writes it only when its end address fits. */
  lemma {:induction false} HeaderLayout(kind: Kind, data: seq<Byte>, name: string, addr: int, exec: int)
    requires HasHeader(kind) && NameField(name).Some?
    requires kind.Binary? ==> addr + |data| - 1 <= MaxAddr
    ensures var out := Encoding(kind, data, name, addr, exec).out;
            |out| >= 24 &&
            out[..8] == BlockId &&
            out[8..18] == Fill(FillByte(kind), 10) &&
            out[18..24] == NameField(name).value
  {
    var field := NameField(name).value;
    var out := Encoding(kind, data, name, addr, exec).out;
    var rest := match kind
      case Ascii => AsciiBody(data)
      case Basic => BlockId + data
      case Binary => BlockId + BinaryWords(addr, addr + |data| - 1, exec, data).out;
    assert out == BlockId + (TypeBlock(kind) + (field + rest));
    AppendAssoc(TypeBlock(kind), field, rest);
    AppendAssoc(BlockId, TypeBlock(kind) + field, rest);
    AppendAssoc(BlockId, TypeBlock(kind), field);
    var head := BlockId + TypeBlock(kind) + field;
    assert out == head + rest;
    assert out[..24] == head;
    TypeBlockFill(kind);
  }

  /** A typed branch whose name does not encode as ASCII stops right after
      its type block: the output is the marker and the type block, and the
      error is NameNotAscii. A binary gets that far only when it fits. */
  lemma {:induction false} NameErrorPath(kind: Kind, data: seq<Byte>, name: string, addr: int, exec: int)
    requires HasHeader(kind) && NameField(name).None?
    requires kind.Binary? ==> addr + |data| - 1 <= MaxAddr
    ensures Encoding(kind, data, name, addr, exec) == Emission(BlockId + TypeBlock(kind), Some(NameNotAscii))
  {
  }

  /** Basic and ascii fail only on the name: they run to the end exactly
      when the name encodes as ASCII, and otherwise report NameNotAscii. */
  lemma {:induction false} NameOnlyFailure(kind: Kind, data: seq<Byte>, name: string, addr: int, exec: int)
    requires kind.Basic? || kind.Ascii?
    ensures var e := Encoding(kind, data, name, addr, exec);
            (e.error.None? <==> NameField(name).Some?) &&
            (e.error.Some? ==> e.error == Some(NameNotAscii))
  {
  }

  /** The basic format: marker, ten 0xD3, the name, a second marker, then
      the data as it is, 32 bytes more than the data. */
  lemma {:induction false} BasicLayout(data: seq<Byte>, name: string, addr: int, exec: int)
    requires NameField(name).Some?
    ensures var e := Encoding(Basic, data, name, addr, exec);
            e.error.None? &&
            e.out == BlockId + Fill(0xD3, 10) + NameField(name).value + BlockId + data &&
            |e.out| == 32 + |data|
  {
    TypeBlockFill(Basic);
  }

  /** The binary format is refused exactly when its end address
      `addr + len(data) - 1` is above 0xFFFF, and then the invocation has
      written only the first marker. */
  lemma {:induction false} BinaryOverflow(data: seq<Byte>, name: string, addr: int, exec: int)
    ensures var e := Encoding(Binary, data, name, addr, exec);
            (e.error == Some(AddressOverflow) <==> addr + |data| - 1 > MaxAddr) &&
            (e.error == Some(AddressOverflow) ==> e.out == BlockId)
  {
  }

  /** The binary format runs to the end exactly when the name is ASCII and
      the load, end and exec addresses are all 16-bit values; it then writes
      the header, a second marker, the words load, end and exec, and the
      data, 38 bytes more than the data. */
  lemma {:induction false} BinaryLayout(data: seq<Byte>, name: string, addr: int, exec: int)
    ensures var e := Encoding(Binary, data, name, addr, exec);
            var endAddr := addr + |data| - 1;
            e.error.None? <==>
              (NameField(name).Some? && 0 <= addr <= MaxAddr && 0 <= endAddr <= MaxAddr && 0 <= exec <= MaxAddr)
    ensures var e := Encoding(Binary, data, name, addr, exec);
            var endAddr := addr + |data| - 1;
            e.error.None? ==>
              e.out == BlockId + Fill(0xD0, 10) + NameField(name).value + BlockId
                       + Word(addr) + Word(endAddr) + Word(exec) + data &&
              |e.out| == 38 + |data|
  {
    TypeBlockFill(Binary);
  }

  /** A binary that fits and has an ASCII name, but one of whose words is
      not a 16-bit value, stops at the first such word: the output is the
      header, the second marker and the words before it, and the error is
      WordOutOfRange. */
  lemma {:induction false} BinaryWordError(data: seq<Byte>, name: string, addr: int, exec: int)
    requires NameField(name).Some? && addr + |data| - 1 <= MaxAddr
    ensures var e := Encoding(Binary, data, name, addr, exec);
            var endAddr := addr + |data| - 1;
            var head := BlockId + Fill(0xD0, 10) + NameField(name).value + BlockId;
            (!(0 <= addr <= MaxAddr) ==>
               e == Emission(head, Some(WordOutOfRange))) &&
            (0 <= addr <= MaxAddr && !(0 <= endAddr <= MaxAddr) ==>
               e == Emission(head + Word(addr), Some(WordOutOfRange))) &&
            (0 <= addr <= MaxAddr && 0 <= endAddr <= MaxAddr && !(0 <= exec <= MaxAddr) ==>
               e == Emission(head + Word(addr) + Word(endAddr), Some(WordOutOfRange)))
  {
    var endAddr := addr + |data| - 1;
    var field := NameField(name).value;
    var words := BinaryWords(addr, endAddr, exec, data);
    var head := BlockId + Fill(0xD0, 10) + field + BlockId;
    TypeBlockFill(Binary);
    assert Encoding(Binary, data, name, addr, exec)
        == Emission(BlockId + (TypeBlock(Binary) + (field + (BlockId + words.out))), words.error);
    assert BlockId + (TypeBlock(Binary) + (field + (BlockId + words.out))) == head + words.out;
    if !(0 <= addr <= MaxAddr) {
      assert words == Emission([], Some(WordOutOfRange));
    } else if !(0 <= endAddr <= MaxAddr) {
      assert words == Emission(Word(addr), Some(WordOutOfRange));
    } else if !(0 <= exec <= MaxAddr) {
      assert words == Emission(Word(addr) + Word(endAddr), Some(WordOutOfRange));
      AppendAssoc(head, Word(addr), Word(endAddr));
    }
  }

  /** A binary with no data loaded at 0x10000 passes the end-address check
      (its end address is 0xFFFF) but write_word then fails on the load
      address; loaded at 0 it fails on the end address -1. */
  lemma {:induction false} BinaryEmptyEdges(name: string, exec: int)
    requires NameField(name).Some?
    ensures Encoding(Binary, [], name, 0x10000, exec).error == Some(WordOutOfRange)
    ensures Encoding(Binary, [], name, 0, exec).error == Some(WordOutOfRange)
  {
  }

  /** The custom-header format: the marker, then the words addr and length,
      then the data, 12 bytes more than the data. It runs to the end exactly
      when the address and the length are 16-bit values. */
  lemma {:induction false} CustomHeaderLayout(data: seq<Byte>, name: string, addr: int, exec: int)
    ensures var e := Encoding(CustomHeader, data, name, addr, exec);
            e.error.None? <==> 0 <= addr <= MaxAddr && |data| <= MaxAddr
    ensures var e := Encoding(CustomHeader, data, name, addr, exec);
            e.error.None? ==>
              e.out == BlockId + Word(addr) + Word(|data|) + data && |e.out| == 12 + |data|
  {
  }

  /** A custom-header stops at the first word that is not a 16-bit value:
      after the marker alone when the address does not fit, after the
      address word when the length does not, with WordOutOfRange. */
  lemma {:induction false} CustomHeaderWordError(data: seq<Byte>, name: string, addr: int, exec: int)
    ensures var e := Encoding(CustomHeader, data, name, addr, exec);
            (!(0 <= addr <= MaxAddr) ==> e == Emission(BlockId, Some(WordOutOfRange))) &&
            (0 <= addr <= MaxAddr && |data| > MaxAddr ==>
               e == Emission(BlockId + Word(addr), Some(WordOutOfRange)))
  {
  }

  /** The custom format: the marker, then the data as it is. */
  lemma {:induction false} CustomLayout(data: seq<Byte>, name: string, addr: int, exec: int)
    ensures Encoding(Custom, data, name, addr, exec) == Emission(BlockId + data, None)
  {
  }

  /** The ascii data followed by its padding: `256 - len(data) % 256` bytes
      of 0x1A, so between 1 and 256 of them, up to a multiple of 256. */
  function Padded(data: seq<Byte>): (r: seq<Byte>)
    ensures |r| % 256 == 0 && |data| < |r| <= |data| + 256
    ensures r[..|data|] == data
    ensures forall i :: |data| <= i < |r| ==> r[i] == AsciiPad
  {
    data + Fill(AsciiPad, 256 - |data| % 256)
  }

  /** A reference layout for ascii bodies: a whole number of 256-byte
      blocks, each behind its own marker. */
  function Blocks(p: seq<Byte>): seq<Byte>
    requires |p| % 256 == 0
    decreases |p|
  {
    if p == [] then [] else BlockId + p[..256] + Blocks(p[256..])
  }

  /** There are `|p| / 256` reference blocks of 264 bytes each. */
  lemma {:induction false} BlocksLength(p: seq<Byte>)
    requires |p| % 256 == 0
    ensures |Blocks(p)| == 264 * (|p| / 256)
    decreases |p|
  {
    if p != [] {
      BlocksLength(p[256..]);
    }
  }

  /** Block `k` of the reference layout is a marker and bytes
      `256*k .. 256*k+256` of `p`. */
  lemma {:induction false} BlockAt(p: seq<Byte>, k: nat)
    requires |p| % 256 == 0 && k < |p| / 256
    ensures |Blocks(p)| >= 264 * k + 264
    ensures Blocks(p)[264 * k .. 264 * k + 264] == BlockId + p[256 * k .. 256 * k + 256]
    decreases k
  {
    BlocksLength(p);
    if k > 0 {
      var rest := p[256..];
      BlockAt(rest, k - 1);
      var tail := Blocks(rest);
      assert Blocks(p) == (BlockId + p[..256]) + tail;
      assert Blocks(p)[264 * k .. 264 * k + 264] == tail[264 * (k - 1) .. 264 * (k - 1) + 264];
      assert rest[256 * (k - 1) .. 256 * (k - 1) + 256] == p[256 * k .. 256 * k + 256];
    }
  }

  /** For at most 256 bytes of data, the loop writes one chunk and the tail
      completes it, or adds a block of its own when the chunk is full or
      there is no chunk at all. */
  lemma {:induction false} LastChunks(s: seq<Byte>)
    requires |s| <= 256
    ensures Chunks(s) + AsciiTail(s) == Blocks(Padded(s))
  {
    var p := Padded(s);
    var pad := Fill(AsciiPad, 256 - |s| % 256);
    assert p == s + pad;
    if |s| == 0 || |s| == 256 {
      assert pad[..256] == pad && pad[256..] == [];
      assert Blocks(pad) == BlockId + pad;
      if |s| == 0 {
        assert p == pad;
      } else {
        assert p[..256] == s && p[256..] == pad;
      }
    } else {
      assert p[..256] == p && p[256..] == [];
    }
  }

  /** The loop's marker-and-chunk output followed by the tail is the
      reference layout of the padded data. */
  lemma {:induction false} ChunksAreBlocks(s: seq<Byte>)
    ensures Chunks(s) + AsciiTail(s) == Blocks(Padded(s))
    decreases |s|
  {
    if |s| <= 256 {
      LastChunks(s);
    } else {
      var p := Padded(s);
      var rest := s[256..];
      ChunksAreBlocks(rest);
      assert |s| % 256 == |rest| % 256 by {
        assert |s| == |rest| + 256;
      }
      assert AsciiTail(rest) == AsciiTail(s);
      assert p == s + Fill(AsciiPad, 256 - |s| % 256);
      assert p[..256] == s[..256];
      assert p[256..] == Padded(rest);
      AppendAssoc(BlockId + s[..256], Chunks(rest), AsciiTail(s));
    }
  }

  /** The ascii body is `len(data) // 256 + 1` blocks of 264 bytes, each a
      marker and 256 bytes of the padded data: the data's chunks in order,
      the last of them filled up with 0x1A, and a block of only 0x1A when the
      length is a multiple of 256 (the empty data included). */
  lemma {:induction false} AsciiBodyBlocks(data: seq<Byte>)
    ensures |Padded(data)| / 256 == |data| / 256 + 1
    ensures AsciiBody(data) == Blocks(Padded(data))
    ensures |AsciiBody(data)| == 264 * (|data| / 256 + 1)
  {
    ChunksAreBlocks(data);
    BlocksLength(Padded(data));
  }

  /** A slice that lies in the second part of a concatenation. */
  lemma {:induction false} SliceAfter(a: seq<Byte>, b: seq<Byte>, i: nat, j: nat)
    requires i <= j <= |b|
    ensures (a + b)[|a| + i .. |a| + j] == b[i..j]
  {
    assert forall n :: 0 <= n < j - i ==> (a + b)[|a| + i .. |a| + j][n] == b[i..j][n];
  }

  /** The ascii output is the header followed by the reference blocks of
      the padded data. */
  lemma {:induction false} AsciiOutput(data: seq<Byte>, name: string, addr: int, exec: int)
    requires NameField(name).Some?
    ensures Encoding(Ascii, data, name, addr, exec)
         == Emission(BlockId + Fill(0xEA, 10) + NameField(name).value + Blocks(Padded(data)), None)
  {
    var field := NameField(name).value;
    var body := Blocks(Padded(data));
    TypeBlockFill(Ascii);
    AsciiBodyBlocks(data);
    AppendAssoc(TypeBlock(Ascii), field, body);
    AppendAssoc(BlockId, TypeBlock(Ascii) + field, body);
    AppendAssoc(BlockId, TypeBlock(Ascii), field);
  }

  /** The whole ascii output: the 24-byte header, then for every k up to
      `len(data) // 256`, block k is a marker and bytes 256k .. 256k+255 of
      the padded data; 24 + 264 bytes per block in all. */
  lemma {:induction false} AsciiLayout(data: seq<Byte>, name: string, addr: int, exec: int, k: nat)
    requires NameField(name).Some?
    requires k <= |data| / 256
    ensures var e := Encoding(Ascii, data, name, addr, exec);
            e.error.None? &&
            |e.out| == 24 + 264 * (|data| / 256 + 1) &&
            e.out[..24] == BlockId + Fill(0xEA, 10) + NameField(name).value &&
            e.out[24 + 264 * k .. 24 + 264 * k + 264] == BlockId + Padded(data)[256 * k .. 256 * k + 256]
  {
    var head := BlockId + Fill(0xEA, 10) + NameField(name).value;
    var body := Blocks(Padded(data));
    AsciiOutput(data, name, addr, exec);
    AsciiBodyBlocks(data);
    BlockAt(Padded(data), k);
    var out := head + body;
    assert |head| == 24;
    assert out[..24] == head;
    SliceAfter(head, body, 264 * k, 264 * k + 264);
  }

  /** The last ascii block holds the data that the earlier blocks left over
      followed by the padding; when the data length is a multiple of 256
      nothing is left over and the block is 256 bytes of 0x1A. */
  lemma {:induction false} AsciiLastBlock(data: seq<Byte>)
    ensures var n := |data| / 256;
            Padded(data)[256 * n .. 256 * n + 256] == data[256 * n..] + Fill(AsciiPad, 256 - |data| % 256)
    ensures var n := |data| / 256;
            |data| % 256 == 0 ==> Padded(data)[256 * n .. 256 * n + 256] == Fill(AsciiPad, 256)
  {
    var n := |data| / 256;
    assert |data| - 256 * n == |data| % 256;
    assert Padded(data) == data + Fill(AsciiPad, 256 - |data| % 256);
  }

  /** A 5-byte binary "HELLO" named "HELLO", loaded and started at 0x4000:
      its end address is 0x4004. */
  lemma {:induction false} HelloBinary()
    ensures var data: seq<Byte> := [0x48, 0x45, 0x4C, 0x4C, 0x4F];
            Encoding(Binary, data, "HELLO", 0x4000, 0x4000)
              == Emission(BlockId + Fill(0xD0, 10) + [0x48, 0x45, 0x4C, 0x4C, 0x4F, 0x20] + BlockId
                          + [0x00, 0x40, 0x04, 0x40, 0x00, 0x40] + data, None)
  {
    var data: seq<Byte> := [0x48, 0x45, 0x4C, 0x4C, 0x4F];
    NamePadded("HELLO");
    assert AsciiBytes("HELLO") == [0x48, 0x45, 0x4C, 0x4C, 0x4F];
    assert NameField("HELLO").value == [0x48, 0x45, 0x4C, 0x4C, 0x4F, 0x20];
    assert Word(0x4000) == [0x00, 0x40] && Word(0x4004) == [0x04, 0x40];
    BinaryLayout(data, "HELLO", 0x4000, 0x4000);
  }
}
