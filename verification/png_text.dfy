/**
 * The PNG text-chunk walker of the media-metadata inspector. It steps over the
 * chunks of a PNG file (a 4-byte big-endian length, a 4-byte type, the data and a
 * 4-byte CRC, after an 8-byte signature) and collects the keyword/text pairs of
 * the `tEXt` and `iTXt` chunks, stopping at `IEND`. Keywords and texts are kept as
 * bytes; the zlib inflation of compressed `iTXt` text is a parameter.
 */
module PngText {
  import opened Common

  type Byte = b: int | 0 <= b < 256
  type Bytes = seq<Byte>

  /** The ASCII chunk types the walker looks at. */
  const TEXT: Bytes := [0x74, 0x45, 0x58, 0x74]  // "tEXt"
  const ITXT: Bytes := [0x69, 0x54, 0x58, 0x74]  // "iTXt"
  const IEND: Bytes := [0x49, 0x45, 0x4E, 0x44]  // "IEND"

  /** How the walk ends: a completed walk (`null` when nothing was found) or a RangeError. */
  datatype Outcome = Done(info: Option<map<Bytes, Bytes>>) | Fail

  /** `DataView.getUint32(off, false)`: four bytes read most significant first. */
  function ReadU32BE(buf: Bytes, off: nat): (n: nat)
    requires off + 4 <= |buf|
    ensures n < 0x1_0000_0000
  {
    (buf[off] as int) * 0x100_0000 + (buf[off + 1] as int) * 0x1_0000 + (buf[off + 2] as int) * 0x100
      + buf[off + 3] as int
  }

  /** The big-endian bytes of a 32-bit length. */
  function U32BE(n: nat): (b: Bytes)
    requires n < 0x1_0000_0000
    ensures |b| == 4
  {
    [n / 0x100_0000, (n / 0x1_0000) % 0x100, (n / 0x100) % 0x100, n % 0x100]
  }

  lemma ReadU32BEOfU32BE(n: nat, pre: Bytes, post: Bytes)
    requires n < 0x1_0000_0000
    ensures ReadU32BE(pre + U32BE(n) + post, |pre|) == n
  {
    var b := U32BE(n);
    var buf := pre + b + post;
    assert buf[|pre|] == b[0] && buf[|pre| + 1] == b[1] && buf[|pre| + 2] == b[2] && buf[|pre| + 3] == b[3];
    U32BEDigits(n);
  }

  /** The four base-256 digits of `n` put together again give `n`. */
  lemma U32BEDigits(n: nat)
    requires n < 0x1_0000_0000
    ensures ReadU32BE(U32BE(n), 0) == n
  {
    var q1 := n / 0x100;
    var q2 := q1 / 0x100;
    assert n == q1 * 0x100 + n % 0x100;
    assert q1 == q2 * 0x100 + q1 % 0x100;
    assert q2 == (q2 / 0x100) * 0x100 + q2 % 0x100;
    assert q2 == n / 0x1_0000;
    assert q2 / 0x100 == n / 0x100_0000;
  }

  /** `Uint8Array.indexOf(0)`: the first zero byte, or -1. */
  function IndexOfZero(data: Bytes): (i: int)
    ensures -1 <= i < |data|
    ensures i >= 0 ==> data[i] == 0 && forall j | 0 <= j < i :: data[j] != 0
    ensures i == -1 ==> forall j | 0 <= j < |data| :: data[j] != 0
  {
    if data == [] then -1
    else if data[0] == 0 then 0
    else
      var i := IndexOfZero(data[1..]);
      if i == -1 then -1 else i + 1
  }

  /** The `while (pos < len && data[pos] !== 0) pos++; pos++;` idiom: the index after the next zero. */
  function SkipField(data: Bytes, pos: nat): (q: nat)
    ensures q > pos
    ensures q - 1 < |data| ==> data[q - 1] == 0
    ensures q - 1 >= |data| ==> q == if pos > |data| then pos + 1 else |data| + 1
    ensures forall j | pos <= j < q - 1 && j < |data| :: data[j] != 0
    decreases |data| - pos
  {
    if pos < |data| && data[pos] != 0 then SkipField(data, pos + 1) else pos + 1
  }

  /** The keyword and text of a `tEXt` chunk, when its keyword is non-empty. */
  function ParseText(data: Bytes): (r: Option<(Bytes, Bytes)>)
    ensures r.Some? <==> IndexOfZero(data) > 0
    ensures r.Some? ==> |r.value.0| > 0 && 0 !in r.value.0 && data == r.value.0 + [0] + r.value.1
  {
    var z := IndexOfZero(data);
    if z <= 0 then None
    else
      assert data == data[..z] + [0] + data[z + 1..];
      Some((data[..z], data[z + 1..]))
  }

  /**
   * The keyword and text of an `iTXt` chunk. A compression flag other than 0 (or a
   * missing one) sends the text through `inflate`; an inflation failure drops the chunk.
   */
  function ParseIText(data: Bytes, inflate: Bytes -> Option<Bytes>): (r: Option<(Bytes, Bytes)>)
    ensures IndexOfZero(data) <= 0 ==> r.None?
    ensures r.Some? ==> var z := IndexOfZero(data); r.value.0 == data[..z] && 0 !in r.value.0
  {
    var z := IndexOfZero(data);
    if z <= 0 then None
    else
      var key := data[..z];
      var uncompressed := z + 1 < |data| && data[z + 1] == 0;
      var afterLanguage := SkipField(data, z + 3);
      var afterTranslated := SkipField(data, afterLanguage);
      var text := if afterTranslated <= |data| then data[afterTranslated..] else [];
      if uncompressed then Some((key, text))
      else
        match inflate(text)
        case None => None
        case Some(t) => Some((key, t))
  }

  /** The entry a chunk of type `kind` contributes: a parsed `tEXt` or `iTXt` pair, else none. */
  function EntryOf(kind: Bytes, data: Bytes, inflate: Bytes -> Option<Bytes>): Option<(Bytes, Bytes)>
  {
    if kind == TEXT then ParseText(data)
    else if kind == ITXT then ParseIText(data, inflate)
    else None
  }

  /** One step of collection: a parsed entry overwrites its keyword and records a find. */
  function Record(entry: Option<(Bytes, Bytes)>, info: map<Bytes, Bytes>, found: bool): (r: (map<Bytes, Bytes>, bool))
    ensures entry.None? ==> r == (info, found)
    ensures entry.Some? ==> r.1 && r.0 == info[entry.value.0 := entry.value.1]
  {
    match entry
    case None => (info, found)
    case Some(kt) => (info[kt.0 := kt.1], true)
  }

  /** What one iteration of the chunk loop does: stop with an outcome, or go on to the next chunk. */
  datatype Step = Stop(outcome: Outcome) | Next(offset: nat, info: map<Bytes, Bytes>, found: bool)

  /** One iteration of the chunk loop of extractPngTextChunks, at `offset`. */
  function ChunkStep(buf: Bytes, offset: nat, info: map<Bytes, Bytes>, found: bool, inflate: Bytes -> Option<Bytes>)
    : (s: Step)
    ensures s.Next? ==> s.offset >= offset + 12
    ensures s.Next? && found ==> s.found
    ensures offset + 8 > |buf| ==> s == Stop(Done(if found then Some(info) else None))
  {
    if offset >= |buf| || offset + 8 > |buf| then Stop(Done(if found then Some(info) else None))
    else
      var length := ReadU32BE(buf, offset);
      var kind := buf[offset + 4..offset + 8];
      if kind == TEXT || kind == ITXT then
        if offset + 8 + length > |buf| then Stop(Fail)
        else
          var data := buf[offset + 8..offset + 8 + length];
          var next := Record(EntryOf(kind, data, inflate), info, found);
          Next(offset + 12 + length, next.0, next.1)
      else if kind == IEND then Stop(Done(if found then Some(info) else None))
      else Next(offset + 12 + length, info, found)
  }

  /** The chunk loop from `offset` to its end. */
  function Walk(buf: Bytes, offset: nat, info: map<Bytes, Bytes>, found: bool, inflate: Bytes -> Option<Bytes>)
    : (r: Outcome)
    ensures offset + 8 > |buf| ==> r == Done(if found then Some(info) else None)
    ensures found && r.Done? ==> r.info.Some?
    decreases |buf| - offset
  {
    match ChunkStep(buf, offset, info, found, inflate)
    case Stop(outcome) => outcome
    case Next(next, info', found') =>
      assert found ==> found';
      Walk(buf, next, info', found', inflate)
  }

  /** extractPngTextChunks: the walk from just after the 8-byte signature, which is not checked. */
  function ExtractPngTextChunks(buf: Bytes, inflate: Bytes -> Option<Bytes>): (r: Outcome)
    ensures |buf| < 16 ==> r == Done(None)
  {
    Walk(buf, 8, map[], false, inflate)
  }

  // ---------------------------------------------------------------------------
  // The chunk layout, as a writer of PNG files produces it
  // ---------------------------------------------------------------------------

  datatype Chunk = Chunk(kind: Bytes, data: Bytes, crc: Bytes)

  predicate WellFormed(c: Chunk)
  {
    |c.kind| == 4 && |c.crc| == 4 && |c.data| < 0x1_0000_0000
  }

  function EncodeChunk(c: Chunk): (b: Bytes)
    requires WellFormed(c)
    ensures |b| == 12 + |c.data|
  {
    U32BE(|c.data|) + c.kind + c.data + c.crc
  }

  predicate AllWellFormed(cs: seq<Chunk>)
  {
    forall i | 0 <= i < |cs| :: WellFormed(cs[i])
  }

  lemma AllWellFormedTail(cs: seq<Chunk>)
    requires cs != [] && AllWellFormed(cs)
    ensures WellFormed(cs[0]) && AllWellFormed(cs[1..])
  {
    assert forall i | 0 <= i < |cs[1..]| :: cs[1..][i] == cs[i + 1];
  }

  function EncodeChunks(cs: seq<Chunk>): Bytes
    requires AllWellFormed(cs)
  {
    if cs == [] then []
    else
      AllWellFormedTail(cs);
      EncodeChunk(cs[0]) + EncodeChunks(cs[1..])
  }

  /** The entry a chunk contributes. */
  function ChunkEntry(c: Chunk, inflate: Bytes -> Option<Bytes>): Option<(Bytes, Bytes)>
  {
    EntryOf(c.kind, c.data, inflate)
  }

  /** Reference reading of a chunk list: the text entries in order, up to the first `IEND`. */
  function Collect(cs: seq<Chunk>, info: map<Bytes, Bytes>, found: bool, inflate: Bytes -> Option<Bytes>)
    : Option<map<Bytes, Bytes>>
  {
    if cs == [] || cs[0].kind == IEND then (if found then Some(info) else None)
    else
      var next := Record(ChunkEntry(cs[0], inflate), info, found);
      Collect(cs[1..], next.0, next.1, inflate)
  }

  /** The fields the walker reads from an encoded chunk at `off`. */
  lemma ChunkAt(buf: Bytes, off: nat, c: Chunk)
    requires WellFormed(c)
    requires off + 12 + |c.data| <= |buf|
    requires buf[off..off + 12 + |c.data|] == EncodeChunk(c)
    ensures ReadU32BE(buf, off) == |c.data|
    ensures buf[off + 4..off + 8] == c.kind
    ensures buf[off + 8..off + 8 + |c.data|] == c.data
  {
    var e := EncodeChunk(c);
    var pre := buf[..off];
    var post := buf[off + 12 + |c.data|..];
    assert buf == pre + e + post;
    assert buf == pre + U32BE(|c.data|) + (c.kind + c.data + c.crc + post);
    ReadU32BEOfU32BE(|c.data|, pre, c.kind + c.data + c.crc + post);
    assert buf[off + 4..off + 8] == e[4..8] == c.kind;
    assert buf[off + 8..off + 8 + |c.data|] == e[8..8 + |c.data|] == c.data;
  }

  /** The loop stops at an `IEND` chunk. */
  lemma StepAtIend(buf: Bytes, off: nat, info: map<Bytes, Bytes>, found: bool, inflate: Bytes -> Option<Bytes>)
    requires off + 8 <= |buf| && buf[off + 4..off + 8] == IEND
    ensures ChunkStep(buf, off, info, found, inflate) == Stop(Done(if found then Some(info) else None))
  {
  }

  /** The loop records the entry of a complete chunk of another type and moves past it. */
  lemma StepOverChunk(buf: Bytes, off: nat, c: Chunk, info: map<Bytes, Bytes>, found: bool,
                      inflate: Bytes -> Option<Bytes>)
    requires c.kind != IEND
    requires off + 12 + |c.data| <= |buf|
    requires ReadU32BE(buf, off) == |c.data|
    requires buf[off + 4..off + 8] == c.kind
    requires buf[off + 8..off + 8 + |c.data|] == c.data
    ensures ChunkStep(buf, off, info, found, inflate) ==
              Next(off + 12 + |c.data|, Record(ChunkEntry(c, inflate), info, found).0,
                   Record(ChunkEntry(c, inflate), info, found).1)
  {
  }

  /** The encoding of a non-empty chunk list is its first chunk followed by the rest. */
  lemma EncodedSplit(buf: Bytes, off: nat, cs: seq<Chunk>)
    requires AllWellFormed(cs)
    requires cs != [] && off <= |buf| && buf[off..] == EncodeChunks(cs)
    ensures off + 12 + |cs[0].data| <= |buf|
    ensures buf[off..off + 12 + |cs[0].data|] == EncodeChunk(cs[0])
    ensures buf[off + 12 + |cs[0].data|..] == EncodeChunks(cs[1..])
  {
    var e := EncodeChunk(cs[0]);
    assert buf[off..] == e + EncodeChunks(cs[1..]);
    assert buf[off..][..|e|] == e;
    assert buf[off..][|e|..] == EncodeChunks(cs[1..]);
  }

  /** The walk goes on from where one iteration leaves it. */
  lemma WalkNext(buf: Bytes, offset: nat, info: map<Bytes, Bytes>, found: bool, inflate: Bytes -> Option<Bytes>,
                 next: nat, info': map<Bytes, Bytes>, found': bool)
    requires ChunkStep(buf, offset, info, found, inflate) == Next(next, info', found')
    ensures Walk(buf, offset, info, found, inflate) == Walk(buf, next, info', found', inflate)
  {
  }

  /** The reference reading goes on past a chunk other than `IEND`. */
  lemma CollectNext(cs: seq<Chunk>, info: map<Bytes, Bytes>, found: bool, inflate: Bytes -> Option<Bytes>)
    requires cs != [] && cs[0].kind != IEND
    ensures Collect(cs, info, found, inflate) ==
      Collect(cs[1..], Record(ChunkEntry(cs[0], inflate), info, found).0, Record(ChunkEntry(cs[0], inflate), info, found).1, inflate)
  {
  }

  /** The walk stops where the encoded chunks end. */
  lemma WalkAtEnd(buf: Bytes, off: nat, info: map<Bytes, Bytes>, found: bool, inflate: Bytes -> Option<Bytes>)
    requires off == |buf|
    ensures Walk(buf, off, info, found, inflate) == Done(Collect([], info, found, inflate))
  {
  }

  /** The walk stops at an encoded `IEND` chunk, as the reference reading does. */
  lemma WalkAtIend(buf: Bytes, off: nat, cs: seq<Chunk>, info: map<Bytes, Bytes>, found: bool,
                   inflate: Bytes -> Option<Bytes>)
    requires cs != [] && cs[0].kind == IEND
    requires ChunkStep(buf, off, info, found, inflate) == Stop(Done(if found then Some(info) else None))
    ensures Walk(buf, off, info, found, inflate) == Done(Collect(cs, info, found, inflate))
  {
  }

  /** Chains one walk step, the rest of the walk, and one step of the reference reading. */
  lemma WalkThen(buf: Bytes, off: nat, cs: seq<Chunk>, info: map<Bytes, Bytes>, found: bool,
                 inflate: Bytes -> Option<Bytes>, off': nat, info': map<Bytes, Bytes>, found': bool)
    requires cs != []
    requires Walk(buf, off, info, found, inflate) == Walk(buf, off', info', found', inflate)
    requires Walk(buf, off', info', found', inflate) == Done(Collect(cs[1..], info', found', inflate))
    requires Collect(cs, info, found, inflate) == Collect(cs[1..], info', found', inflate)
    ensures Walk(buf, off, info, found, inflate) == Done(Collect(cs, info, found, inflate))
  {
  }

  /** The byte walk over an encoded chunk list reads what the reference reading collects. */
  lemma {:induction false} WalkEncoded(buf: Bytes, off: nat, cs: seq<Chunk>, info: map<Bytes, Bytes>, found: bool,
                                       inflate: Bytes -> Option<Bytes>)
    requires AllWellFormed(cs)
    requires off <= |buf| && buf[off..] == EncodeChunks(cs)
    ensures Walk(buf, off, info, found, inflate) == Done(Collect(cs, info, found, inflate))
    decreases |cs|
  {
    if cs == [] {
      assert off == |buf|;
      WalkAtEnd(buf, off, info, found, inflate);
    } else {
      var c := cs[0];
      AllWellFormedTail(cs);
      EncodedSplit(buf, off, cs);
      ChunkAt(buf, off, c);
      if c.kind == IEND {
        StepAtIend(buf, off, info, found, inflate);
        WalkAtIend(buf, off, cs, info, found, inflate);
      } else {
        StepOverChunk(buf, off, c, info, found, inflate);
        var next := Record(ChunkEntry(c, inflate), info, found);
        var off' := off + 12 + |c.data|;
        WalkNext(buf, off, info, found, inflate, off', next.0, next.1);
        CollectNext(cs, info, found, inflate);
        WalkEncoded(buf, off', cs[1..], next.0, next.1, inflate);
        WalkThen(buf, off, cs, info, found, inflate, off', next.0, next.1);
      }
    }
  }

  /** A file of a signature and well-formed chunks is read without error, as the reference reading says. */
  lemma ExtractEncoded(signature: Bytes, cs: seq<Chunk>, inflate: Bytes -> Option<Bytes>)
    requires |signature| == 8
    requires AllWellFormed(cs)
    ensures ExtractPngTextChunks(signature + EncodeChunks(cs), inflate) == Done(Collect(cs, map[], false, inflate))
  {
    var buf := signature + EncodeChunks(cs);
    assert buf[8..] == EncodeChunks(cs);
    WalkEncoded(buf, 8, cs, map[], false, inflate);
  }

  /** A `tEXt` chunk whose declared length runs past the end of the file makes the extraction fail. */
  lemma TruncatedTextFails(signature: Bytes, declared: nat, data: Bytes, inflate: Bytes -> Option<Bytes>)
    requires |signature| == 8
    requires |data| < declared < 0x1_0000_0000
    ensures ExtractPngTextChunks(signature + U32BE(declared) + TEXT + data, inflate) == Fail
  {
    var buf := signature + U32BE(declared) + TEXT + data;
    ReadU32BEOfU32BE(declared, signature, TEXT + data);
    assert buf == signature + U32BE(declared) + (TEXT + data);
    assert buf[12..16] == TEXT;
  }

  // ---------------------------------------------------------------------------
  // The layouts of the two text chunks
  // ---------------------------------------------------------------------------

  /** `keyword NUL text`. */
  function TextData(key: Bytes, text: Bytes): Bytes
  {
    key + [0] + text
  }

  /** The keyword and text of a `tEXt` chunk read back as written. */
  lemma ParseTextData(key: Bytes, text: Bytes)
    requires |key| > 0 && 0 !in key
    ensures ParseText(TextData(key, text)) == Some((key, text))
  {
    var data := TextData(key, text);
    FirstZeroAfter(key, text);
    assert data[..|key|] == key;
    assert data[|key| + 1..] == text;
  }

  /** The first zero of `a NUL b` is right after `a` when `a` holds none. */
  lemma FirstZeroAfter(a: Bytes, b: Bytes)
    requires 0 !in a
    ensures IndexOfZero(a + [0] + b) == |a|
  {
    var d := a + [0] + b;
    assert d[|a|] == 0;
    assert forall j | 0 <= j < |a| :: d[j] == a[j];
  }

  /**
   * `keyword NUL flag method language NUL translated-keyword NUL text`, with the
   * compression flag and method bytes (`cmethod`) given.
   */
  function ITextData(key: Bytes, flag: Byte, cmethod: Byte, language: Bytes, translated: Bytes, text: Bytes): Bytes
  {
    key + [0] + [flag, cmethod] + language + [0] + translated + [0] + text
  }

  /** `SkipField` from the start of a NUL-free field lands just after its NUL. */
  lemma {:induction false} SkipFieldOver(data: Bytes, pos: nat, n: nat)
    requires pos + n < |data| && data[pos + n] == 0
    requires forall j | pos <= j < pos + n :: data[j] != 0
    ensures SkipField(data, pos) == pos + n + 1
    decreases n
  {
    if n > 0 {
      SkipFieldOver(data, pos + 1, n - 1);
    }
  }

  /** The keyword and flag of an `iTXt` chunk sit where the reader looks for them. */
  lemma ITextHead(key: Bytes, flag: Byte, cmethod: Byte, language: Bytes, translated: Bytes, text: Bytes)
    requires |key| > 0 && 0 !in key
    ensures var data := ITextData(key, flag, cmethod, language, translated, text);
      var z := IndexOfZero(data);
      z == |key| && data[..z] == key && data[z + 1] == flag
  {
    var tail := [flag, cmethod] + language + [0] + translated + [0] + text;
    var data := ITextData(key, flag, cmethod, language, translated, text);
    assert data == key + [0] + tail;
    FirstZeroAfter(key, tail);
    assert data[..|key|] == key;
  }

  /** The two NUL-terminated fields after the flag and method bytes are skipped exactly. */
  lemma ITextFields(key: Bytes, flag: Byte, cmethod: Byte, language: Bytes, translated: Bytes, text: Bytes)
    requires 0 !in language && 0 !in translated
    ensures var data := ITextData(key, flag, cmethod, language, translated, text);
      && SkipField(data, |key| + 3) == |key| + 4 + |language|
      && SkipField(data, |key| + 4 + |language|) == |data| - |text|
      && data[|data| - |text|..] == text
  {
    var data := ITextData(key, flag, cmethod, language, translated, text);
    var p := |key| + 3;
    assert data[p..p + |language|] == language;
    assert data[p + |language|] == 0;
    SkipFieldOver(data, p, |language|);
    var q := p + |language| + 1;
    assert data[q..q + |translated|] == translated;
    assert data[q + |translated|] == 0;
    SkipFieldOver(data, q, |translated|);
    assert data[|data| - |text|..] == text;
  }

  /** An uncompressed `iTXt` chunk reads back as its keyword and text. */
  lemma ParseITextPlain(key: Bytes, cmethod: Byte, language: Bytes, translated: Bytes, text: Bytes,
                        inflate: Bytes -> Option<Bytes>)
    requires |key| > 0 && 0 !in key && 0 !in language && 0 !in translated
    ensures ParseIText(ITextData(key, 0, cmethod, language, translated, text), inflate) == Some((key, text))
  {
    ITextHead(key, 0, cmethod, language, translated, text);
    ITextFields(key, 0, cmethod, language, translated, text);
  }

  /** A compressed `iTXt` chunk reads as its keyword and the inflated text, or is dropped. */
  lemma ParseITextCompressed(key: Bytes, flag: Byte, cmethod: Byte, language: Bytes, translated: Bytes,
                             text: Bytes, inflate: Bytes -> Option<Bytes>)
    requires |key| > 0 && 0 !in key && 0 !in language && 0 !in translated
    requires flag != 0
    ensures ParseIText(ITextData(key, flag, cmethod, language, translated, text), inflate) ==
      match inflate(text)
      case None => None
      case Some(t) => Some((key, t))
  {
    ITextHead(key, flag, cmethod, language, translated, text);
    ITextFields(key, flag, cmethod, language, translated, text);
  }
}
