# mkcas in Dafny

A model of `mkcas`, the tool that builds an MSX cassette image (a CAS file).
It wraps an input payload in sync markers, a typed header and padding, as the
MSX tape loader expects. One invocation opens the output file, either fresh
("wb") or for appending ("ab"). It writes the 8-byte sync marker
`1F A6 DE BA CC 13 7D 74` and then the bytes for the chosen type:

- `ascii`: a header, then the data in 256-byte chunks. Each chunk has its own
  marker, and the last chunk is padded with 0x1A.
- `basic`: a header, a marker, then the data.
- `binary`: a header, a marker, the load, end and exec addresses as
  little-endian words, then the data.
- `custom-header`: the words load address and length, then the data.
- `custom`: the data.

The header is ten copies of the type's fill byte (0xEA ascii, 0xD3 basic,
0xD0 binary) followed by the name: its first 6 characters, space-padded and
ASCII-encoded.

Layout of the model:

- `mkcas.dfy`, module `MkCas`:
  - `Encoding` is the specification. It gives the bytes one invocation
    appends and the error that stops it, if any. The ascii loop is specified
    by `Chunks`, one marker and chunk per pass.
  - The class `Sink` is the open output file, an append-only byte sequence.
    Its methods (`Write`, `WriteWord`, one per branch, and `Encode`) write
    step by step as the program does, the ascii branch with its loop. Each
    is proved to append exactly what `Encoding` says.
  - `Run` opens the sink in create or append mode, chooses the name and
    encodes.
- `mkcas_properties.dfy`, module `MkCasProperties`: the layout of each type
  as equations over `Encoding`. For ascii this includes a reference
  definition, `Blocks` (marker-prefixed 256-byte blocks of the padded data),
  and the proof that the chunking loop and its padding produce exactly that.

Errors are values. A write that raises writes nothing, and the bytes before
it stay in the file, because the `with` block closes, and so flushes, the
output on the way out. The model has three errors:

- `AddressOverflow`: the binary's end address is above 0xFFFF.
- `WordOutOfRange`: `write_word` was given a value outside 0..0xFFFF, so
  `bytes(...)` raises.
- `NameNotAscii`: the 6-character name does not encode as ASCII.

Points where the code does something other than one might expect from a
description of the format. The model follows the code:

- The first marker is written before the type dispatch. So `custom` and
  `custom-header` output also start with it, and neither is free of framing.
- The end-address check of `binary` runs after that marker is written. A
  refused binary leaves those 8 bytes in the file.
- Names are not converted byte by byte. A non-ASCII character among the
  first six makes `encode("ascii")` raise, after the type block is written.
- `ascii` writes `len // 256 + 1` blocks, not `ceil(len / 256)`. Data whose
  length is a multiple of 256 (including empty data) gets one extra marker
  and a block of 256 × 0x1A.
- `write_word` raises outside 0..0xFFFF, so there are more error cases:
  - an exec address out of range;
  - a `custom-header` payload longer than 0xFFFF bytes;
  - an empty binary loaded at 0, whose end address is -1;
  - an empty binary loaded at 0x10000, whose end address 0xFFFF passes the
    check but whose load address does not fit a word.

## Model

| member | source | states |
|---|---|---|
| `MkCas.WordBytes` | mkcas.py:39-40 | write_word succeeds exactly for 0..0xFFFF, and then gives two bytes whose little-endian value is the word |
| `MkCas.Sink.WriteWord` | mkcas.py:39-40 | reports success exactly for 0..0xFFFF; appends the two word bytes on success and nothing on failure |
| `MkCas.Sink.Write` | mkcas.py:85 | `out.write` appends its argument and changes nothing before it |
| `MkCas.Sink.constructor` | mkcas.py:70-75 | create mode starts from an empty file, append mode from the existing contents |
| `MkCas.Sink.WriteHeader` | mkcas.py:89-90 | a typed header appends the type block, then the 6-byte name field unless encoding the name raises |
| `MkCas.Sink.WriteChunks` | mkcas.py:92-94 | the chunk loop appends, for each offset 0, 256, ... below the length, a marker and the chunk of at most 256 bytes there |
| `MkCas.Sink.WritePadded` | mkcas.py:92-99 | the loop, the extra marker when the padding is 256, and the padding together append the ascii body |
| `MkCas.Sink.EncodeAscii` | mkcas.py:87-99 | the ascii branch appends exactly the ascii encoding and reports its error |
| `MkCas.Sink.EncodeBasic` | mkcas.py:101-106 | the basic branch appends exactly the basic encoding and reports its error |
| `MkCas.Sink.EncodeBinary` | mkcas.py:108-125 | the binary branch appends exactly the binary encoding; the end-address check comes before its header |
| `MkCas.Sink.EncodeWords` | mkcas.py:121-125 | the three words and the data, stopping at the first word that does not fit |
| `MkCas.Sink.EncodeCustomHeader` | mkcas.py:127-134 | the custom-header branch appends exactly its encoding and reports its error |
| `MkCas.Sink.Encode` | mkcas.py:85-138 | one invocation appends exactly `Encoding` to the sink and reports its error |
| `MkCas.Run` | mkcas.py:70-85 | the header name is the `--name` option when it is given and non-empty (lines 77-80), else the input file's base name; with that name, create mode leaves exactly this invocation's bytes, and append mode leaves the earlier contents unchanged, followed by this invocation's bytes |
| `MkCasProperties.WordRoundTrip` | mkcas.py:39-40 | any two bytes, read as a little-endian word, are what write_word emits for that word |
| `MkCasProperties.NameFieldSpec` | mkcas.py:90 | `name[:6].ljust(6).encode("ascii")` fails exactly when one of the first six characters is non-ASCII; otherwise it is 6 bytes, the name's characters then spaces |
| `MkCasProperties.NameTruncated` | mkcas.py:90 | a name of 6 or more characters whose first six are ASCII is truncated to those six |
| `MkCasProperties.NamePadded` | mkcas.py:90 | a shorter ASCII name is right-padded with spaces to exactly 6 bytes |
| `MkCasProperties.NameRejectsNonAscii` | mkcas.py:90 | a non-ASCII character among the first six makes the name encoding fail |
| `MkCasProperties.NameOnlyFirstSix` | mkcas.py:90 | characters after the sixth have no effect on the name field |
| `MkCasProperties.TypeBlockFill` | mkcas.py:30-34 | TYPE_BLOCK of a type is ten copies of that type's fill byte |
| `MkCasProperties.StartsWithMarker` | mkcas.py:36 | every invocation's output, of every type and on every error path, starts with `1F A6 DE BA CC 13 7D 74` |
| `MkCasProperties.HeaderLayout` | mkcas.py:85-90 | for ascii, basic and binary (within the address space), bytes 0..7 are the marker, 8..17 ten copies of the type's fill byte, 18..23 the name field |
| `MkCasProperties.NameErrorPath` | mkcas.py:89-90 | for ascii, basic and a binary that fits, a name that does not encode as ASCII stops the invocation with NameNotAscii, leaving exactly the marker and the type block |
| `MkCasProperties.NameOnlyFailure` | mkcas.py:87-106 | basic and ascii run to the end exactly when the name encodes as ASCII, and their only error is NameNotAscii |
| `MkCasProperties.BasicLayout` | mkcas.py:101-106 | basic output is marker, 10 × 0xD3, name, marker, then the data unmodified; 32 bytes more than the data |
| `MkCasProperties.BinaryOverflow` | mkcas.py:112-115 | a binary is refused with AddressOverflow exactly when `addr + len - 1 > 0xFFFF` (0xFFFF itself accepted), leaving only the first marker |
| `MkCasProperties.BinaryLayout` | mkcas.py:108-125 | a binary succeeds exactly when the name is ASCII and the load, end and exec addresses are 16-bit values; the output is then marker, 10 × 0xD0, name, marker, words load, end, exec, then the data; 38 bytes more than the data |
| `MkCasProperties.BinaryWordError` | mkcas.py:108-123 | a binary that fits and has an ASCII name stops with WordOutOfRange at its first word outside 0..0xFFFF, leaving the header, the second marker and only the words before that one |
| `MkCasProperties.BinaryEmptyEdges` | mkcas.py:110-122 | an empty binary fails in write_word when loaded at 0 (end address -1) or at 0x10000 (load address too wide) |
| `MkCasProperties.HelloBinary` | mkcas.py:108-125 | the 5-byte "HELLO" binary at 0x4000 has end address 0x4004 and the expected bytes |
| `MkCasProperties.CustomHeaderLayout` | mkcas.py:127-134 | custom-header succeeds exactly when the address and the length are 16-bit; the output is then marker, word(addr), word(length), data; 12 bytes more than the data |
| `MkCasProperties.CustomHeaderWordError` | mkcas.py:127-134 | custom-header stops with WordOutOfRange after the marker alone when the address is outside 0..0xFFFF, and after the address word when the length is above 0xFFFF |
| `MkCasProperties.CustomLayout` | mkcas.py:136-138 | custom output is the marker followed by the data, never an error |
| `MkCasProperties.Padded` | mkcas.py:96-99 | the padded ascii data is the data followed by 1 to 256 bytes of 0x1A, up to a multiple of 256 |
| `MkCasProperties.LastChunks` | mkcas.py:92-99 | for at most 256 bytes of data, chunk and tail form the reference blocks: one block, or two when the data is exactly 256 bytes, or one all-padding block for no data |
| `MkCasProperties.ChunksAreBlocks` | mkcas.py:92-99 | the loop's marker-and-chunk output followed by the tail equals the reference blocks of the padded data |
| `MkCasProperties.AsciiBodyBlocks` | mkcas.py:92-99 | the ascii body equals the reference layout: `len // 256 + 1` blocks of 264 bytes, each a marker and 256 bytes of the padded data |
| `MkCasProperties.AsciiOutput` | mkcas.py:87-99 | ascii output with an ASCII name is marker, 10 × 0xEA, name, then the reference blocks of the padded data |
| `MkCasProperties.AsciiLayout` | mkcas.py:87-99 | ascii output is the 24-byte header and then, for every k up to `len // 256`, block k is a marker and bytes 256k..256k+255 of the padded data; total 24 + 264 × (`len // 256` + 1) bytes |
| `MkCasProperties.AsciiLastBlock` | mkcas.py:96-99 | the last ascii block is the data left over after the full chunks, then the padding; when the length is a multiple of 256 it is 256 bytes of 0x1A |

## Left out

- Command-line parsing: `ArgumentParser`, `--version`, and `auto_int`'s
  `int(x, 0)` literal parsing (mkcas.py:43-68). The model takes the parsed
  values as parameters and addresses as unbounded integers, so negative and
  over-wide values are covered.
- Opening, reading and closing files (mkcas.py:75, 82-83). The payload is a
  byte sequence parameter, the output file is the `Sink` buffer, and its
  previous contents in append mode are a parameter.
- The base name of the input path (`os.path.basename`, mkcas.py:80). It is
  a parameter of `Run`.
- The exit of `parser.error` (mkcas.py:115) and the Python exceptions of
  `bytes(...)` and `str.encode` become error values. Process exit, exit
  status and messages are not modelled.
- Characters are Dafny characters (Unicode scalar values). Python strings
  may also hold lone surrogates, which fail the ASCII encoding the same way.
