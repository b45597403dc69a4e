/** A model of the MSX cassette-image encoder `mkcas`.

    One invocation opens the output (truncated or for appending), writes an
    8-byte sync marker, and then, by type, a header and the data blocks.
    `Encoding` says which bytes one invocation appends and which error, if
    any, stops it; the class `Sink` writes those bytes step by step as the
    program does, and `Run` ties the final file to both.
 */
module MkCas {

  /** A value that Python's `bytes(...)` accepts as one byte. */
  type Byte = x: int | 0 <= x < 256

  datatype Option<T> = None | Some(value: T)

  /** The five type tags on the command line. */
  datatype Kind = Binary | Basic | Ascii | CustomHeader | Custom

  /** The output is opened with "wb" (Create) or with "ab" (Append). */
  datatype Mode = Create | Append

  /** What can stop an invocation once the output is open. */
  datatype Error =
    | AddressOverflow  // the binary's end address is above 0xFFFF
    | WordOutOfRange   // write_word was given a value bytes() rejects
    | NameNotAscii     // the 6-character name does not encode as ASCII

  /** The bytes one invocation appends to the output, and the error that cut
      it short (None when it ran to the end). */
  datatype Emission = Emission(out: seq<Byte>, error: Option<Error>)

  /** The sync marker that opens every block. */
  const BlockId: seq<Byte> := [0x1F, 0xA6, 0xDE, 0xBA, 0xCC, 0x13, 0x7D, 0x74]

  /** The byte that pads the last ascii block up to 256 bytes. */
  const AsciiPad: Byte := 0x1A

  /** The last address of the 16-bit address space. */
  const MaxAddr: int := 0xFFFF

  function Min(a: int, b: int): int
  {
    if a <= b then a else b
  }

  /** `n` copies of `b`. */
  function Fill(b: Byte, n: nat): (r: seq<Byte>)
    ensures |r| == n
    ensures forall i :: 0 <= i < n ==> r[i] == b
  {
    seq(n, _ => b)
  }

  /** The three types that carry a header block. */
  predicate HasHeader(kind: Kind)
  {
    kind.Binary? || kind.Basic? || kind.Ascii?
  }

  /** The fill byte of a type's header, the TYPE_BLOCK table. */
  function FillByte(kind: Kind): Byte
    requires HasHeader(kind)
  {
    match kind
    case Binary => 0xD0
    case Basic => 0xD3
    case Ascii => 0xEA
  }

  /** TYPE_BLOCK[kind]: ten copies of the type's fill byte. */
  function TypeBlock(kind: Kind): (r: seq<Byte>)
    requires HasHeader(kind)
    ensures |r| == 10
  {
    var f := FillByte(kind);
    [f, f, f, f, f, f, f, f, f, f]
  }

  /** The little-endian value of two bytes. */
  function WordValue(lo: Byte, hi: Byte): int
  {
    lo + 256 * hi
  }

  /** The two bytes write_word builds, `word & 0xff` then `word >> 8`, or
      None where `bytes(...)` raises because one of them is not a byte. */
  function WordBytes(w: int): (r: Option<seq<Byte>>)
    ensures r.Some? <==> 0 <= w <= MaxAddr
    ensures r.Some? ==> |r.value| == 2 && WordValue(r.value[0], r.value[1]) == w
  {
    // On Python's unbounded integers `w & 0xff` is w modulo 256 and `w >> 8`
    // is w divided by 256 rounded down, for negative w too; Dafny's `%` and
    // `/` by a positive divisor compute exactly these.
    var lo, hi := w % 256, w / 256;
    if 0 <= hi < 256 then Some([lo, hi]) else None
  }

  /** Every character of `s` is ASCII. */
  predicate IsAscii(s: string)
  {
    forall i :: 0 <= i < |s| ==> s[i] as int < 128
  }

  /** The ASCII encoding of `s`. */
  function AsciiBytes(s: string): (r: seq<Byte>)
    requires IsAscii(s)
    ensures |r| == |s|
    ensures forall i :: 0 <= i < |s| ==> r[i] == s[i] as int
  {
    seq(|s|, i requires 0 <= i < |s| => s[i] as int)
  }

  /** `name[:6].ljust(6).encode("ascii")`, or None where the encoding raises. */
  function NameField(name: string): (r: Option<seq<Byte>>)
    ensures r.Some? ==> |r.value| == 6
  {
    var shown := if |name| <= 6 then name else name[..6];
    var padded := shown + seq(6 - |shown|, _ => ' ');
    if IsAscii(padded) then Some(AsciiBytes(padded)) else None
  }

  /** The name the tool uses: the `--name` option when it is given and not
      empty (Python's truth test on strings), else the input file's base name. */
  function ChooseName(option: Option<string>, baseName: string): string
  {
    if option.Some? && option.value != [] then option.value else baseName
  }

  /** What the ascii loop writes for the data from its current offset on:
      each pass a marker and the next (at most 256) data bytes. */
  function Chunks(s: seq<Byte>): seq<Byte>
    decreases |s|
  {
    if s == [] then []
    else if |s| <= 256 then BlockId + s
    else BlockId + s[..256] + Chunks(s[256..])
  }

  /** What the ascii branch writes after the loop: `256 - L % 256` bytes of
      0x1A, behind one more marker when that count is a whole block. */
  function AsciiTail(data: seq<Byte>): seq<Byte>
  {
    var padding := 256 - |data| % 256;
    (if padding == 256 then BlockId else []) + Fill(AsciiPad, padding)
  }

  /** The ascii body after the header: the chunks, then the tail. */
  function AsciiBody(data: seq<Byte>): seq<Byte>
  {
    Chunks(data) + AsciiTail(data)
  }

  /** `s` written, then whatever `rest` writes and the error it stops on. */
  function Prefixed(s: seq<Byte>, rest: Emission): Emission
  {
    Emission(s + rest.out, rest.error)
  }

  /** write_word(out, w), then `rest`; when write_word raises, nothing more. */
  function WordThen(w: int, rest: Emission): Emission
  {
    match WordBytes(w)
    case None => Emission([], Some(WordOutOfRange))
    case Some(word) => Prefixed(word, rest)
  }

  /** The 6-byte name field, then `rest`; when the encoding raises, nothing more. */
  function NameThen(name: string, rest: Emission): Emission
  {
    match NameField(name)
    case None => Emission([], Some(NameNotAscii))
    case Some(field) => Prefixed(field, rest)
  }

  /** The header of a typed branch, the type block and the name field, then
      `rest`; when the name does not encode, only the type block. */
  function HeaderThen(kind: Kind, name: string, rest: Emission): Emission
    requires HasHeader(kind)
  {
    Prefixed(TypeBlock(kind), NameThen(name, rest))
  }

  /** The ascii branch: the header, then the chunked and padded body. */
  function AsciiEncoding(data: seq<Byte>, name: string): Emission
  {
    HeaderThen(Ascii, name, Emission(AsciiBody(data), None))
  }

  /** The basic branch: the header, a second marker, the data as it is. */
  function BasicEncoding(data: seq<Byte>, name: string): Emission
  {
    HeaderThen(Basic, name, Emission(BlockId + data, None))
  }

  /** The words load, end and exec of a binary, then its data; when one word
      does not fit, nothing from that word on. */
  function BinaryWords(addr: int, endAddr: int, exec: int, data: seq<Byte>): Emission
  {
    WordThen(addr, WordThen(endAddr, WordThen(exec, Emission(data, None))))
  }

  /** The binary branch: the end-address check, the header, a second marker,
      the words load, end and exec, then the data. */
  function BinaryEncoding(data: seq<Byte>, name: string, addr: int, exec: int): Emission
  {
    var endAddr := addr + |data| - 1;
    if endAddr > MaxAddr then Emission([], Some(AddressOverflow))
    else HeaderThen(Binary, name, Prefixed(BlockId, BinaryWords(addr, endAddr, exec, data)))
  }

  /** The custom-header branch: the words addr and length, then the data. */
  function CustomHeaderEncoding(data: seq<Byte>, addr: int): Emission
  {
    WordThen(addr, WordThen(|data|, Emission(data, None)))
  }

  /** What the branch of `kind` writes after the first marker. */
  function BodyEncoding(kind: Kind, data: seq<Byte>, name: string, addr: int, exec: int): Emission
  {
    match kind
    case Ascii => AsciiEncoding(data, name)
    case Basic => BasicEncoding(data, name)
    case Binary => BinaryEncoding(data, name, addr, exec)
    case CustomHeader => CustomHeaderEncoding(data, addr)
    case Custom => Emission(data, None)
  }

  /** The bytes one invocation appends to the output and the error, if any,
      that ended it: the first marker, whatever the type, then its branch.
      A write that raises writes nothing; what came before it stays. */
  function Encoding(kind: Kind, data: seq<Byte>, name: string, addr: int, exec: int): (r: Emission)
  {
    Prefixed(BlockId, BodyEncoding(kind, data, name, addr, exec))
  }

  /** Appending `b` and then `c` appends `b + c`. */
  lemma AppendAssoc(a: seq<Byte>, b: seq<Byte>, c: seq<Byte>)
    ensures a + b + c == a + (b + c)
  {
  }

  /** The open output file: a byte stream that is only ever appended to. */
  class Sink {
    var bytes: seq<Byte>

    /** open(output, "wb") starts from nothing; open(output, "ab") from the
        file's existing contents. */
    constructor (mode: Mode, existing: seq<Byte>)
      ensures bytes == if mode == Append then existing else []
    {
      bytes := if mode == Append then existing else [];
    }

    /** out.write(s) */
    method Write(s: seq<Byte>)
      modifies this
      ensures bytes == old(bytes) + s
    {
      bytes := bytes + s;
    }

    /** write_word(out, w): nothing is written when bytes() raises. */
    method WriteWord(w: int) returns (ok: bool)
      modifies this
      ensures ok <==> 0 <= w <= MaxAddr
      ensures bytes == old(bytes) + (if ok then WordBytes(w).value else [])
    {
      var lo, hi := w % 256, w / 256;
      ok := 0 <= hi < 256;
      if ok {
        Write([lo, hi]);
      }
    }

    /** The loop of the ascii branch: for each offset `b` in
        `range(0, len(data), 256)`, a marker and the chunk `data[b:b+256]`. */
    method WriteChunks(data: seq<Byte>)
      modifies this
      ensures bytes == old(bytes) + Chunks(data)
    {
      var b := 0;
      assert data[0..] == data;
      while b < |data|
        invariant bytes + Chunks(data[Min(b, |data|)..]) == old(bytes) + Chunks(data)
        decreases |data| - b
      {
        ghost var before := bytes;
        var chunk := data[b..Min(b + 256, |data|)];
        ghost var later := Chunks(data[Min(b + 256, |data|)..]);
        Write(BlockId);
        Write(chunk);
        AppendAssoc(before, BlockId, chunk);
        AppendAssoc(before, BlockId + chunk, later);
        assert Chunks(data[b..]) == BlockId + chunk + later by {
          if |data| - b > 256 {
            assert data[b..][..256] == chunk;
            assert data[b..][256..] == data[b + 256..];
          } else {
            assert data[b..] == chunk;
            assert data[|data|..] == [];
          }
        }
        b := b + 256;
      }
    }

    /** The chunks of the ascii branch and the padding after them. */
    method WritePadded(data: seq<Byte>)
      modifies this
      ensures bytes == old(bytes) + AsciiBody(data)
    {
      WriteChunks(data);
      var padding := 256 - |data| % 256;
      if padding == 256 {
        Write(BlockId);
      }
      Write(Fill(AsciiPad, padding));
    }

    /** The header of a typed branch: the type block, then the name field
        unless encoding the name raises. */
    method WriteHeader(kind: Kind, name: string) returns (field: Option<seq<Byte>>)
      requires HasHeader(kind)
      modifies this
      ensures field == NameField(name)
      ensures field.None? ==> bytes == old(bytes) + TypeBlock(kind)
      ensures field.Some? ==> bytes == old(bytes) + (TypeBlock(kind) + field.value)
    {
      Write(TypeBlock(kind));
      field := NameField(name);
      if field.Some? {
        Write(field.value);
        AppendAssoc(old(bytes), TypeBlock(kind), field.value);
      }
    }

    /** The ascii branch, after the first marker. */
    method EncodeAscii(data: seq<Byte>, name: string) returns (err: Option<Error>)
      modifies this
      ensures bytes == old(bytes) + AsciiEncoding(data, name).out
      ensures err == AsciiEncoding(data, name).error
    {
      var field := WriteHeader(Ascii, name);
      if field.None? {
        return Some(NameNotAscii);
      }
      WritePadded(data);
      AppendAssoc(TypeBlock(Ascii), field.value, AsciiBody(data));
      AppendAssoc(old(bytes), TypeBlock(Ascii) + field.value, AsciiBody(data));
      err := None;
    }

    /** The basic branch, after the first marker. */
    method EncodeBasic(data: seq<Byte>, name: string) returns (err: Option<Error>)
      modifies this
      ensures bytes == old(bytes) + BasicEncoding(data, name).out
      ensures err == BasicEncoding(data, name).error
    {
      var field := WriteHeader(Basic, name);
      if field.None? {
        return Some(NameNotAscii);
      }
      Write(BlockId);
      Write(data);
      AppendAssoc(old(bytes) + (TypeBlock(Basic) + field.value), BlockId, data);
      AppendAssoc(TypeBlock(Basic), field.value, BlockId + data);
      AppendAssoc(old(bytes), TypeBlock(Basic) + field.value, BlockId + data);
      err := None;
    }

    /** The binary branch, after the first marker. */
    method EncodeBinary(data: seq<Byte>, name: string, addr: int, exec: int) returns (err: Option<Error>)
      modifies this
      ensures bytes == old(bytes) + BinaryEncoding(data, name, addr, exec).out
      ensures err == BinaryEncoding(data, name, addr, exec).error
    {
      var endAddr := addr + |data| - 1;
      if endAddr > MaxAddr {
        return Some(AddressOverflow);
      }
      var field := WriteHeader(Binary, name);
      if field.None? {
        return Some(NameNotAscii);
      }
      Write(BlockId);
      err := EncodeWords(addr, endAddr, exec, data);
      ghost var words := BinaryWords(addr, endAddr, exec, data);
      AppendAssoc(old(bytes) + (TypeBlock(Binary) + field.value), BlockId, words.out);
      AppendAssoc(TypeBlock(Binary), field.value, BlockId + words.out);
      AppendAssoc(old(bytes), TypeBlock(Binary) + field.value, BlockId + words.out);
    }

    /** The three words of the binary header, then the data. */
    method EncodeWords(addr: int, endAddr: int, exec: int, data: seq<Byte>) returns (err: Option<Error>)
      modifies this
      ensures bytes == old(bytes) + BinaryWords(addr, endAddr, exec, data).out
      ensures err == BinaryWords(addr, endAddr, exec, data).error
    {
      var ok := WriteWord(addr);
      if !ok {
        return Some(WordOutOfRange);
      }
      ok := WriteWord(endAddr);
      if !ok {
        return Some(WordOutOfRange);
      }
      ok := WriteWord(exec);
      if !ok {
        return Some(WordOutOfRange);
      }
      Write(data);
      err := None;
    }

    /** The custom-header branch, after the first marker. */
    method EncodeCustomHeader(data: seq<Byte>, addr: int) returns (err: Option<Error>)
      modifies this
      ensures bytes == old(bytes) + CustomHeaderEncoding(data, addr).out
      ensures err == CustomHeaderEncoding(data, addr).error
    {
      var ok := WriteWord(addr);
      if !ok {
        return Some(WordOutOfRange);
      }
      ok := WriteWord(|data|);
      if !ok {
        return Some(WordOutOfRange);
      }
      Write(data);
      err := None;
    }

    /** The encoding body of the program: the first marker, then the branch
        of the type. */
    method Encode(kind: Kind, data: seq<Byte>, name: string, addr: int, exec: int)
      returns (err: Option<Error>)
      modifies this
      ensures bytes == old(bytes) + Encoding(kind, data, name, addr, exec).out
      ensures err == Encoding(kind, data, name, addr, exec).error
    {
      Write(BlockId);
      ghost var afterMarker := bytes;
      ghost var body := BodyEncoding(kind, data, name, addr, exec);
      match kind {
        case Ascii =>
          err := EncodeAscii(data, name);
          assert body == AsciiEncoding(data, name);
        case Basic =>
          err := EncodeBasic(data, name);
          assert body == BasicEncoding(data, name);
        case Binary =>
          err := EncodeBinary(data, name, addr, exec);
          assert body == BinaryEncoding(data, name, addr, exec);
        case CustomHeader =>
          err := EncodeCustomHeader(data, addr);
          assert body == CustomHeaderEncoding(data, addr);
        case Custom =>
          Write(data);
          err := None;
      }
      AppendAssoc(old(bytes), BlockId, body.out);
    }
  }

  /** The file one invocation leaves behind and the error it reports, when
      it appends `e` to the output opened in `mode` over `existing`: in
      create mode only `e`'s bytes, in append mode the earlier contents
      unchanged and then `e`'s bytes. */
  predicate Leaves(mode: Mode, existing: seq<Byte>, e: Emission, file: seq<Byte>, err: Option<Error>)
  {
    err == e.error &&
    (mode == Create ==> file == e.out) &&
    (mode == Append ==> |file| >= |existing| && file[..|existing|] == existing
                        && file[|existing|..] == e.out)
  }

  /** One invocation: open the output in `mode` over its `existing` contents,
      choose the name, encode, and return the file as it is left. A non-empty
      `--name` is the name written into the header; without it, or when it is
      empty, the input file's base name is. */
  method Run(mode: Mode, existing: seq<Byte>, kind: Kind, data: seq<Byte>,
             nameOption: Option<string>, baseName: string, addr: int, exec: int)
    returns (file: seq<Byte>, err: Option<Error>)
    ensures nameOption.Some? && nameOption.value != [] ==>
              Leaves(mode, existing, Encoding(kind, data, nameOption.value, addr, exec), file, err)
    ensures nameOption.None? || nameOption.value == [] ==>
              Leaves(mode, existing, Encoding(kind, data, baseName, addr, exec), file, err)
  {
    var out := new Sink(mode, existing);
    var name := ChooseName(nameOption, baseName);
    err := out.Encode(kind, data, name, addr, exec);
    file := out.bytes;
    assert file == (if mode == Append then existing else []) + Encoding(kind, data, name, addr, exec).out;
  }
}
