/** The state of the parser driver that the semantic actions work on. */
module AviDriver {
  import opened Wrappers
  import opened AviTables
  import opened AviStack

  /** A token as the scanner delivers it, the stream offset once it is scanned
      and what the client would answer if it were handed over as a frame. */
  datatype Lexeme = Lexeme(code: int, meta: ChunkMeta, offset: nat, frameOk: bool)

  datatype Flag = Ok | Accept | Abort

  /** What the client of the parser is told. */
  datatype Call = Header(chunks: seq<ChunkMeta>) | Frame(chunk: ChunkMeta) | Between(chunk: ChunkMeta)

  datatype Mode = Mode(headerOnly: bool, fileSize: nat)

  datatype DriverState = DriverState(chunks: seq<ChunkMeta>, inFrames: bool, finished: bool, calls: seq<Call>)

  predicate Alpha(b: int) {
    0x41 <= b <= 0x5A || 0x61 <= b <= 0x7A
  }

  predicate Digit(b: int) {
    0x30 <= b <= 0x39
  }

  /** Byte `i` in memory of a little-endian word. */
  function ByteAt(word: Uint32, i: nat): int
    requires i < 4
  {
    word / (if i == 0 then 1 else if i == 1 then 0x100 else if i == 2 then 0x1_0000 else 0x100_0000) % 0x100
  }

  /** The pattern of two letters and two digits over the bytes in memory. */
  predicate IsFrame(m: ChunkMeta) {
    var id := m.identifier;
    Alpha(ByteAt(id, 0)) && Alpha(ByteAt(id, 1)) && Digit(ByteAt(id, 2)) && Digit(ByteAt(id, 3))
  }

  /** The FOURCC macro: the first character on disk is the high byte. */
  function FourCC(a: Byte, b: Byte, c: Byte, d: Byte): Uint32 {
    a * 0x100_0000 + b * 0x1_0000 + c * 0x100 + d
  }

  lemma Bytes(a: Byte, b: Byte, c: Byte, d: Byte)
    ensures var w := FourCC(a, b, c, d);
      ByteAt(w, 0) == d && ByteAt(w, 1) == c && ByteAt(w, 2) == b && ByteAt(w, 3) == a
  {
    var w := FourCC(a, b, c, d);
    var w1, w2 := a * 0x1_0000 + b * 0x100 + c, a * 0x100 + b;
    assert w / 0x100 == w1 && w % 0x100 == d;
    assert w / 0x1_0000 == w2 && w1 % 0x100 == c;
    assert w / 0x100_0000 == a && w2 % 0x100 == b && a % 0x100 == a;
  }

  /** A frame chunk is one whose name on disk, the first character being the high
      byte, is two digits and two letters. */
  lemma FrameOnDisk(a: Byte, b: Byte, c: Byte, d: Byte, m: ChunkMeta)
    requires m.identifier == a * 0x100_0000 + b * 0x1_0000 + c * 0x100 + d
    ensures IsFrame(m) <==>
      && 0x30 <= a <= 0x39 && 0x30 <= b <= 0x39
      && (0x41 <= c <= 0x5A || 0x61 <= c <= 0x7A) && (0x41 <= d <= 0x5A || 0x61 <= d <= 0x7A)
  {
    hide ByteAt;
    Bytes(a, b, c, d);
  }

  /** The tokens whose action ends the parse, whatever came before. */
  predicate Stops(mode: Mode, x: Lexeme) {
    && Token(x.code) == CHUNK
    && ((IsFrame(x.meta) && (mode.headerOnly || !x.frameOk)) || (mode.fileSize != 0 && x.offset >= mode.fileSize))
  }

  /** The mid-rule action for one chunk or list of the body. */
  function Taken(mode: Mode, d: DriverState, x: Lexeme): (DriverState, Flag) {
    var pushed := d.(chunks := d.chunks + [x.meta]);
    var between := if d.inFrames then pushed.(calls := d.calls + [Between(x.meta)]) else pushed;
    var last := mode.fileSize != 0 && x.offset >= mode.fileSize;
    if Token(x.code) != CHUNK then (between, Ok)
    else if !IsFrame(x.meta) then (between.(finished := d.finished || last), if last then Accept else Ok)
    else if mode.headerOnly then
      (d.(inFrames := true, finished := true, calls := d.calls + [Header(d.chunks)]), Accept)
    else
      var framed := pushed.(inFrames := true, calls := d.calls + [Frame(x.meta)]);
      if !x.frameOk then (framed, Abort)
      else (framed.(finished := d.finished || last), if last then Accept else Ok)
  }

  class Driver {
    var chunks: seq<ChunkMeta>
    var inFrames: bool
    var finished: bool
    var parseHeaderOnly: bool
    var offset: nat
    var fileSize: nat
    var frameOk: bool
    var calls: seq<Call>
    var initialized: bool

    constructor (size: nat)
      ensures State() == DriverState([], false, false, []) && !initialized && fileSize == size && offset == 0
    {
      chunks, inFrames, finished, parseHeaderOnly, offset := [], false, false, false, 0;
      fileSize, frameOk, calls, initialized := size, false, [], false;
    }

    function State(): DriverState
      reads this
    {
      DriverState(chunks, inFrames, finished, calls)
    }

    function ModeOf(): Mode
      reads this
    {
      Mode(parseHeaderOnly, fileSize)
    }

    /** initialize: a second call forgets everything about the first run. */
    method Initialize(headerOnly: bool)
      modifies this
      ensures initialized && parseHeaderOnly == headerOnly && fileSize == old(fileSize) && calls == old(calls)
      ensures old(initialized) ==> chunks == [] && !inFrames && !finished && offset == 0
      ensures !old(initialized) ==> State() == old(State()) && offset == old(offset)
    {
      if initialized {
        chunks := [];
        inFrames := false;
        finished := false;
        offset := 0;
        parseHeaderOnly := false;
        initialized := false;
      }
      parseHeaderOnly := headerOnly;
      initialized := true;
    }

    // The client's side of the interface.

    method TellHeader(c: seq<ChunkMeta>)
      modifies this`calls
      ensures calls == old(calls) + [Header(c)]
    {
      calls := calls + [Header(c)];
    }

    method TellFrame(m: ChunkMeta) returns (ok: bool)
      modifies this`calls
      ensures calls == old(calls) + [Frame(m)] && ok == frameOk
    {
      calls := calls + [Frame(m)];
      ok := frameOk;
    }

    method TellBetween(m: ChunkMeta)
      modifies this`calls
      ensures calls == old(calls) + [Between(m)]
    {
      calls := calls + [Between(m)];
    }

    /** The action of rule 5, behind a chunk. */
    method ActionChunk(m: ChunkMeta, ghost x: Lexeme) returns (flag: Flag)
      requires Token(x.code) == CHUNK && x.meta == m && x.offset == offset && x.frameOk == frameOk
      modifies this`chunks, this`inFrames, this`finished, this`calls
      ensures (State(), flag) == Taken(ModeOf(), old(State()), x)
      ensures inFrames <==> old(inFrames) || IsFrame(m)
      ensures chunks == old(chunks) + if IsFrame(m) && parseHeaderOnly then [] else [m]
      ensures calls == old(calls) +
        if IsFrame(m) then [if parseHeaderOnly then Header(old(chunks)) else Frame(m)]
        else if old(inFrames) then [Between(m)] else []
      ensures var refused := IsFrame(m) && !parseHeaderOnly && !frameOk;
        var atEnd := fileSize != 0 && offset >= fileSize;
        && (finished <==> old(finished) || (IsFrame(m) && parseHeaderOnly) || (atEnd && !refused))
        && (flag == Abort <==> refused)
        && (flag == Accept <==> (IsFrame(m) && parseHeaderOnly) || (atEnd && !refused))
    {
      if IsFrame(m) {
        inFrames := true;
        if parseHeaderOnly {
          TellHeader(chunks);
          finished := true;
          return Accept;
        }
        chunks := chunks + [m];
        var ok := TellFrame(m);
        if !ok {
          return Abort;
        }
      } else {
        chunks := chunks + [m];
        if inFrames {
          TellBetween(m);
        }
      }
      if fileSize != 0 && offset >= fileSize {
        finished := true;
        return Accept;
      }
      return Ok;
    }

    /** The action of rule 7, behind a list. */
    method ActionList(m: ChunkMeta, ghost x: Lexeme) returns (flag: Flag)
      requires Token(x.code) == LIST && x.meta == m
      modifies this`chunks, this`calls
      ensures (State(), flag) == Taken(ModeOf(), old(State()), x)
      ensures chunks == old(chunks) + [m] && calls == old(calls) + (if inFrames then [Between(m)] else []) && flag == Ok
    {
      chunks := chunks + [m];
      if inFrames {
        TellBetween(m);
      }
      return Ok;
    }
  }

  lemma TakenStops(mode: Mode, d: DriverState, x: Lexeme)
    ensures Taken(mode, d, x).1 == Ok <==> !Stops(mode, x)
  {
  }
}
