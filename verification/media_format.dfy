/**
 * The text helpers of the media-metadata inspector: HTML escaping of metadata
 * values, the duration label of the summary, and the selection of the entries
 * that look like AI-generation metadata.
 */
module MediaFormat {
  import opened Common
  import opened Decimal

  // ---------------------------------------------------------------------------
  // escapeHtml
  // ---------------------------------------------------------------------------

  /** `s.replace(/c/g, rep)`: every occurrence of the character `c` replaced by `rep`. */
  function ReplaceAll(s: string, c: char, rep: string): (r: string)
    ensures c !in rep ==> c !in r
    ensures forall x | x in r :: x in s || x in rep
  {
    if s == [] then [] else (if s[0] == c then rep else [s[0]]) + ReplaceAll(s[1..], c, rep)
  }

  /** Replacement distributes over concatenation. */
  lemma {:induction false} ReplaceAllAppend(a: string, b: string, c: char, rep: string)
    ensures ReplaceAll(a + b, c, rep) == ReplaceAll(a, c, rep) + ReplaceAll(b, c, rep)
    decreases |a|
  {
    if a != [] {
      assert (a + b)[1..] == a[1..] + b;
      ReplaceAllAppend(a[1..], b, c, rep);
    } else {
      assert a + b == b;
    }
  }

  /** The escaped form of one character. */
  function EscapeChar(c: char): string
  {
    if c == '&' then "&amp;"
    else if c == '<' then "&lt;"
    else if c == '>' then "&gt;"
    else if c == '"' then "&quot;"
    else if c == '\'' then "&#039;"
    else [c]
  }

  /** Reference definition: every character escaped on its own, left to right. */
  function EscapeEach(s: string): string
  {
    if s == [] then [] else EscapeChar(s[0]) + EscapeEach(s[1..])
  }

  predicate IsHtmlSpecial(c: char)
  {
    c == '<' || c == '>' || c == '"' || c == '\''
  }

  /** The five chained replacements, `&` first so that the inserted entities are not escaped again. */
  function ChainedReplace(s: string): string
  {
    ReplaceAll(ReplaceAll(ReplaceAll(ReplaceAll(ReplaceAll(s, '&', "&amp;"), '<', "&lt;"), '>', "&gt;"), '"', "&quot;"), '\'', "&#039;")
  }

  /** Replacing a character that does not occur changes nothing. */
  lemma {:induction false} ReplaceAllAbsent(s: string, c: char, rep: string)
    requires c !in s
    ensures ReplaceAll(s, c, rep) == s
    decreases |s|
  {
    if s != [] {
      assert s == [s[0]] + s[1..];
      ReplaceAllAbsent(s[1..], c, rep);
    }
  }

  lemma ReplaceAllSingle(x: char, c: char, rep: string)
    ensures ReplaceAll([x], c, rep) == if x == c then rep else [x]
  {
    assert [x][1..] == [];
  }

  /** The chain distributes over concatenation. */
  lemma ChainedReplaceAppend(a: string, b: string)
    ensures ChainedReplace(a + b) == ChainedReplace(a) + ChainedReplace(b)
  {
    ReplaceAllAppend(a, b, '&', "&amp;");
    var a1, b1 := ReplaceAll(a, '&', "&amp;"), ReplaceAll(b, '&', "&amp;");
    ReplaceAllAppend(a1, b1, '<', "&lt;");
    var a2, b2 := ReplaceAll(a1, '<', "&lt;"), ReplaceAll(b1, '<', "&lt;");
    ReplaceAllAppend(a2, b2, '>', "&gt;");
    var a3, b3 := ReplaceAll(a2, '>', "&gt;"), ReplaceAll(b2, '>', "&gt;");
    ReplaceAllAppend(a3, b3, '"', "&quot;");
    var a4, b4 := ReplaceAll(a3, '"', "&quot;"), ReplaceAll(b3, '"', "&quot;");
    ReplaceAllAppend(a4, b4, '\'', "&#039;");
  }

  /** The last four replacements leave a text without their characters unchanged. */
  lemma TailStepsKeep(t: string, from: nat)
    requires from <= 4
    requires from <= 1 ==> '<' !in t
    requires from <= 2 ==> '>' !in t
    requires from <= 3 ==> '"' !in t
    requires '\'' !in t
    ensures from == 1 ==> ReplaceAll(ReplaceAll(ReplaceAll(ReplaceAll(t, '<', "&lt;"), '>', "&gt;"), '"', "&quot;"), '\'', "&#039;") == t
    ensures from == 2 ==> ReplaceAll(ReplaceAll(ReplaceAll(t, '>', "&gt;"), '"', "&quot;"), '\'', "&#039;") == t
    ensures from == 3 ==> ReplaceAll(ReplaceAll(t, '"', "&quot;"), '\'', "&#039;") == t
    ensures from == 4 ==> ReplaceAll(t, '\'', "&#039;") == t
  {
    if from <= 1 { ReplaceAllAbsent(t, '<', "&lt;"); }
    if from <= 2 { ReplaceAllAbsent(t, '>', "&gt;"); }
    if from <= 3 { ReplaceAllAbsent(t, '"', "&quot;"); }
    ReplaceAllAbsent(t, '\'', "&#039;");
  }

  /** On one character the chain yields that character's entity. */
  lemma ChainedReplaceChar(c: char)
    ensures ChainedReplace([c]) == EscapeChar(c)
  {
    var one := [c];
    ReplaceAllSingle(c, '&', "&amp;");
    if c == '&' {
      TailStepsKeep("&amp;", 1);
      return;
    }
    assert ReplaceAll(one, '&', "&amp;") == one;
    ReplaceAllSingle(c, '<', "&lt;");
    if c == '<' {
      TailStepsKeep("&lt;", 2);
      return;
    }
    ReplaceAllSingle(c, '>', "&gt;");
    if c == '>' {
      TailStepsKeep("&gt;", 3);
      return;
    }
    ReplaceAllSingle(c, '"', "&quot;");
    if c == '"' {
      TailStepsKeep("&quot;", 4);
      return;
    }
    ReplaceAllSingle(c, '\'', "&#039;");
  }

  /** The chain of replacements equals escaping each character on its own. */
  lemma {:induction false} ChainedReplaceIsPerChar(s: string)
    ensures ChainedReplace(s) == EscapeEach(s)
    decreases |s|
  {
    if s != [] {
      assert s == [s[0]] + s[1..];
      ChainedReplaceAppend([s[0]], s[1..]);
      ChainedReplaceChar(s[0]);
      ChainedReplaceIsPerChar(s[1..]);
    }
  }

  lemma {:induction false} EscapeEachHasNoSpecials(s: string)
    ensures forall i | 0 <= i < |EscapeEach(s)| :: !IsHtmlSpecial(EscapeEach(s)[i])
    decreases |s|
  {
    if s != [] {
      EscapeEachHasNoSpecials(s[1..]);
    }
  }

  /** escapeHtml: the output holds no raw `<`, `>`, `"` or `'`, and is the per-character escape. */
  function EscapeHtml(s: string): (r: string)
    ensures r == EscapeEach(s)
    ensures forall i | 0 <= i < |r| :: !IsHtmlSpecial(r[i])
  {
    ChainedReplaceIsPerChar(s);
    EscapeEachHasNoSpecials(s);
    ChainedReplace(s)
  }

  /** Decoding of the five entities escapeHtml produces (the browser's reading of the markup). */
  function UnescapeHtml(t: string): string
    decreases |t|
  {
    if t == [] then []
    else if t[0] == '&' && |t| >= 5 && t[..5] == "&amp;" then "&" + UnescapeHtml(t[5..])
    else if t[0] == '&' && |t| >= 4 && t[..4] == "&lt;" then "<" + UnescapeHtml(t[4..])
    else if t[0] == '&' && |t| >= 4 && t[..4] == "&gt;" then ">" + UnescapeHtml(t[4..])
    else if t[0] == '&' && |t| >= 6 && t[..6] == "&quot;" then "\"" + UnescapeHtml(t[6..])
    else if t[0] == '&' && |t| >= 6 && t[..6] == "&#039;" then "'" + UnescapeHtml(t[6..])
    else [t[0]] + UnescapeHtml(t[1..])
  }

  /** Decoding reads one escaped character back and continues after its entity. */
  lemma UnescapeEscapeChar(c: char, t: string)
    ensures UnescapeHtml(EscapeChar(c) + t) == [c] + UnescapeHtml(t)
  {
    var e := EscapeChar(c);
    var u := e + t;
    assert u[..|e|] == e;
    assert u[|e|..] == t;
    if c == '&' {
      assert u[..5] == "&amp;";
    } else if c == '<' {
      assert u[..4] == "&lt;";
      assert |u| >= 5 ==> u[..5][1] == 'l';
    } else if c == '>' {
      assert u[..4] == "&gt;";
      assert |u| >= 5 ==> u[..5][1] == 'g';
      assert u[..4][1] != "&lt;"[1];
    } else if c == '"' {
      assert u[..6] == "&quot;";
      assert |u| >= 5 ==> u[..5][1] == 'q';
      assert u[..4][1] == 'q';
    } else if c == '\'' {
      assert u[..6] == "&#039;";
      assert |u| >= 5 ==> u[..5][1] == '#';
      assert u[..4][1] == '#';
      assert u[..6][1] != "&quot;"[1];
    } else {
      assert u[0] == c;
    }
  }

  /** Escaping loses nothing: the displayed text is exactly the metadata value. */
  lemma {:induction false} UnescapeEscapeHtml(s: string)
    ensures UnescapeHtml(EscapeHtml(s)) == s
    decreases |s|
  {
    if s != [] {
      assert EscapeEach(s) == EscapeChar(s[0]) + EscapeEach(s[1..]);
      UnescapeEscapeChar(s[0], EscapeEach(s[1..]));
      UnescapeEscapeHtml(s[1..]);
      assert s == [s[0]] + s[1..];
    }
  }

  // ---------------------------------------------------------------------------
  // formatDuration
  // ---------------------------------------------------------------------------

  /** Hours, minutes and seconds of a whole number of seconds, with JavaScript's `%`. */
  function DurationParts(seconds: int): (hms: (int, int, int))
    ensures seconds >= 0 ==> hms.0 >= 0 && 0 <= hms.1 < 60 && 0 <= hms.2 < 60
    ensures seconds >= 0 ==> hms.0 * 3600 + hms.1 * 60 + hms.2 == seconds
    ensures seconds < 0 ==> hms.0 < 0 && hms.1 <= 0 && -60 < hms.2 <= 0
  {
    // Math.floor(x / 3600) and Math.floor(r / 60) are Dafny's `/`, which floors for a positive divisor
    (seconds / 3600, JsRem(seconds, 3600) / 60, JsRem(seconds, 60))
  }

  /**
   * formatDuration: `-` for a missing or zero duration; otherwise the label of its
   * whole seconds.
   */
  function FormatDuration(ms: Option<real>): (r: string)
    ensures (ms.None? || ms.value == 0.0) <==> r == "-"
  {
    if ms.None? || ms.value == 0.0 then "-" else SecondsLabel(Floor(ms.value / 1000.0))
  }

  /** The label `Hh Mm Ss`, leaving out the hours, then the minutes, while they are zero. */
  function SecondsLabel(seconds: int): (r: string)
    ensures |r| > 1
  {
    var hms := DurationParts(seconds);
    LabelOf(hms.0, hms.1, hms.2)
  }

  /** One printed field: the number followed by its unit letter. */
  function Field(n: int, unit: char): string
  {
    IntToString(n) + [unit]
  }

  /** The three shapes of a label, from its hours, minutes and seconds. */
  function LabelOf(h: int, m: int, s: int): (r: string)
    ensures |r| > 1
  {
    if h > 0 then Field(h, 'h') + (" " + (Field(m, 'm') + (" " + Field(s, 's'))))
    else if m > 0 then Field(m, 'm') + (" " + Field(s, 's'))
    else Field(s, 's')
  }

  /** A duration unit letter: hours, minutes or seconds. */
  predicate IsUnit(u: char)
  {
    u == 'h' || u == 'm' || u == 's'
  }

  /** The seconds in `n` units `u`. */
  function InSeconds(n: int, u: char): int
    requires IsUnit(u)
  {
    if u == 'h' then n * 3600 else if u == 'm' then n * 60 else n
  }

  /**
   * Reads the space-separated fields `<digits><unit>` of `t`, from index `i` on,
   * into a number of seconds.
   */
  function ParseFrom(t: string, i: nat): Option<int>
    requires i <= |t|
    decreases |t| - i
  {
    var k := DigitsEnd(t, i);
    if k == i || k == |t| || !IsUnit(t[k]) then None
    else
      var v := InSeconds(DigitsIn(t, i, k), t[k]);
      if k + 1 == |t| then Some(v)
      else if t[k + 1] != ' ' then None
      else
        match ParseFrom(t, k + 2)
        case None => None
        case Some(x) => Some(v + x)
  }

  /** Reads a whole label back into a number of seconds. */
  function ParseDuration(t: string): Option<int>
  {
    ParseFrom(t, 0)
  }

  /** Fields read after a prefix are read as in the text without the prefix. */
  lemma {:induction false} ParseFromShift(a: string, b: string, i: nat)
    requires i <= |b|
    ensures ParseFrom(a + b, |a| + i) == ParseFrom(b, i)
    decreases |b| - i
  {
    DigitsEndShift(a, b, i);
    var k := DigitsEnd(b, i);
    if i < k < |b| {
      assert (a + b)[|a| + k] == b[k];
      DigitsInShift(a, b, i, k);
      if k + 1 < |b| {
        assert (a + b)[|a| + k + 1] == b[k + 1];
        ParseFromShift(a, b, k + 2);
      }
    }
  }

  /** The first field of `<digits><u>...` ends at the unit letter and has the value of the digits. */
  lemma FieldHead(d: string, u: char, r: string)
    requires |d| > 0 && AllDigits(d)
    requires IsUnit(u)
    ensures DigitsEnd(d + [u] + r, 0) == |d|
    ensures DigitsIn(d + [u] + r, 0, |d|) == DigitsValue(d)
    ensures (d + [u] + r)[|d|] == u
  {
    var t := d + [u] + r;
    assert t == d + ([u] + r);
    assert forall x | 0 <= x < |d| :: t[x] == d[x];
    assert t[|d|] == u;
    DigitsEndOfRun(t, 0, |d|);
    DigitsInPrefix(d, [u] + r, 0, |d|);
  }

  /** A text that is a single field `<digits><u>` reads as that field's seconds. */
  lemma ParseLastField(d: string, u: char)
    requires |d| > 0 && AllDigits(d)
    requires IsUnit(u)
    ensures ParseDuration(d + [u]) == Some(InSeconds(DigitsValue(d), u))
  {
    FieldHead(d, u, []);
    assert d + [u] + [] == d + [u];
  }

  /** A field, a space and a readable text read as the sum of their seconds. */
  lemma ParseInnerField(d: string, u: char, more: string, x: int)
    requires |d| > 0 && AllDigits(d)
    requires IsUnit(u)
    requires ParseDuration(more) == Some(x)
    ensures ParseDuration(d + [u] + (" " + more)) == Some(InSeconds(DigitsValue(d), u) + x)
  {
    var a := d + [u] + " ";
    var t := d + [u] + (" " + more);
    assert t == a + more;
    FieldHead(d, u, " " + more);
    assert t[|d| + 1] == ' ';
    ParseFromShift(a, more, 0);
  }

  /** A printed field alone reads back as its number of seconds. */
  lemma ParsePrintedLast(n: nat, u: char)
    requires IsUnit(u)
    ensures ParseDuration(Field(n, u)) == Some(InSeconds(n, u))
  {
    NatToStringDigits(n);
    DigitsValueOfNatToString(n);
    ParseLastField(NatToString(n), u);
  }

  /** A printed field, a space and a readable text read back as the sum of their seconds. */
  lemma ParseFieldThen(n: nat, u: char, more: string, x: int)
    requires IsUnit(u)
    requires ParseDuration(more) == Some(x)
    ensures ParseDuration(Field(n, u) + (" " + more)) == Some(InSeconds(n, u) + x)
  {
    NatToStringDigits(n);
    DigitsValueOfNatToString(n);
    ParseInnerField(NatToString(n), u, more, x);
  }

  /** A label of seconds only reads back as those seconds. */
  lemma ParseSecondsShape(s: nat)
    ensures ParseDuration(Field(s, 's')) == Some(s)
  {
    ParsePrintedLast(s, 's');
  }

  /** A label of minutes and seconds reads back as their total. */
  lemma ParseMinutesShape(m: nat, s: nat)
    ensures ParseDuration(Field(m, 'm') + (" " + Field(s, 's'))) == Some(m * 60 + s)
  {
    ParseSecondsShape(s);
    ParseFieldThen(m, 'm', Field(s, 's'), s);
  }

  /** A label of hours, minutes and seconds reads back as their total. */
  lemma ParseHoursShape(h: nat, m: nat, s: nat)
    ensures ParseDuration(Field(h, 'h') + (" " + (Field(m, 'm') + (" " + Field(s, 's'))))) == Some(h * 3600 + m * 60 + s)
  {
    ParseMinutesShape(m, s);
    ParseFieldThen(h, 'h', Field(m, 'm') + (" " + Field(s, 's')), m * 60 + s);
  }

  /** Each label shape reads back as its number of seconds. */
  lemma ParseLabelOf(h: nat, m: nat, s: nat)
    ensures ParseDuration(LabelOf(h, m, s)) == Some(h * 3600 + m * 60 + s)
  {
    if h > 0 {
      ParseHoursShape(h, m, s);
    } else if m > 0 {
      ParseMinutesShape(m, s);
    } else {
      ParseSecondsShape(s);
    }
  }

  /** A label of non-negative parts starts with a zero digit only when everything is zero. */
  lemma LabelOfFirstChar(h: nat, m: nat, s: nat)
    ensures LabelOf(h, m, s)[0] == '0' ==> LabelOf(h, m, s) == "0s"
  {
    if h > 0 {
      NatToStringDigits(h);
      assert LabelOf(h, m, s)[0] == NatToString(h)[0];
    } else if m > 0 {
      NatToStringDigits(m);
      assert LabelOf(h, m, s)[0] == NatToString(m)[0];
    } else {
      NatToStringDigits(s);
      assert LabelOf(h, m, s)[0] == NatToString(s)[0];
      if s == 0 {
        assert NatToString(0) == "0";
      }
    }
  }

  /** The label of a non-negative number of seconds reads back as that number. */
  lemma SecondsLabelRoundTrip(seconds: int)
    requires seconds >= 0
    ensures ParseDuration(SecondsLabel(seconds)) == Some(seconds)
  {
    var hms := DurationParts(seconds);
    ParseLabelOf(hms.0, hms.1, hms.2);
  }

  /** The label of a non-negative number of seconds has no leading zero unless it is `0s`. */
  lemma SecondsLabelNoLeadingZero(seconds: int)
    requires seconds >= 0
    ensures var r := SecondsLabel(seconds); r[0] == '0' ==> r == "0s"
  {
    var hms := DurationParts(seconds);
    LabelOfFirstChar(hms.0, hms.1, hms.2);
  }

  /** The label of a positive duration reads back as its whole seconds. */
  lemma FormatDurationRoundTrip(ms: real)
    requires ms > 0.0
    ensures ParseDuration(FormatDuration(Some(ms))) == Some(Floor(ms / 1000.0))
  {
    LabelOfPositive(ms);
    SecondsLabelRoundTrip(Floor(ms / 1000.0));
  }

  /** The label of a positive duration starts with a non-zero digit unless it is `0s`. */
  lemma FormatDurationNoLeadingZero(ms: real)
    requires ms > 0.0
    ensures var r := FormatDuration(Some(ms)); r[0] == '0' ==> r == "0s"
  {
    LabelOfPositive(ms);
    SecondsLabelNoLeadingZero(Floor(ms / 1000.0));
  }

  /** A positive duration is labelled by its whole seconds. */
  lemma LabelOfPositive(ms: real)
    requires ms > 0.0
    ensures Floor(ms / 1000.0) >= 0
    ensures FormatDuration(Some(ms)) == SecondsLabel(Floor(ms / 1000.0))
  {
  }

  // ---------------------------------------------------------------------------
  // getGenerationInfo
  // ---------------------------------------------------------------------------

  /** A value of a MediaInfo track entry: only strings matter to the selection. */
  datatype JsValue = Str(s: string) | NonString

  /** PNG keywords that hold generation data. */
  const AiKeys: seq<string> := ["parameters", "workflow", "prompt", "Comment", "Description",
                                "postprocessing", "extras", "Software"]

  /** General-track keys that may hold generation data. */
  const MetaKeys: seq<string> := ["parameters", "workflow", "prompt", "Comment", "Description",
                                  "Title", "comment", "description"]

  /** A PNG text entry is kept when its keyword is listed or mentions `parameter` in any case. */
  predicate PngKeyKept(k: string)
  {
    k in AiKeys || Contains(LowerAscii(k), "parameter")
  }

  /** A general-track key is considered when listed or when it mentions `parameters` or `comment`. */
  predicate GeneralKeyMatches(k: string)
  {
    k in MetaKeys || Contains(LowerAscii(k), "parameters") || Contains(LowerAscii(k), "comment")
  }

  /** The markers of Stable Diffusion / ComfyUI output, or a key that always carries it. */
  predicate LooksLikeAi(k: string, v: string)
  {
    || Contains(v, "Steps:") || Contains(v, "Sampler:") || Contains(v, "CFG")
    || Contains(v, "\"nodes\"") || Contains(v, "\"inputs\"") || Contains(v, "\"class_type\"")
    || Contains(v, "\"workflow\"") || Contains(v, "\"prompt\"")
    || k == "workflow" || k == "prompt" || k == "parameters"
  }

  /** A general-track entry qualifies: matching key, a string value longer than 10, AI-looking. */
  predicate GeneralKept(k: string, v: JsValue)
  {
    GeneralKeyMatches(k) && v.Str? && |v.s| > 10 && LooksLikeAi(k, v.s)
  }

  /** Some entry of the general track qualifies. */
  predicate SomeGeneralKept(entries: seq<(string, JsValue)>)
  {
    exists i | 0 <= i < |entries| :: GeneralKept(entries[i].0, entries[i].1)
  }

  /** The PNG pass: the qualifying entries of the text chunks. */
  function PngPass(meta: map<string, string>): (info: map<string, string>)
    ensures forall k | k in info :: k in meta && PngKeyKept(k) && info[k] == meta[k]
    ensures forall k | k in meta && PngKeyKept(k) :: k in info
  {
    map k | k in meta && PngKeyKept(k) :: meta[k]
  }

  /**
   * The general-track pass over the entries in order. Once anything was found, only
   * listed keys are still looked at; a kept entry overwrites an earlier one with its key.
   */
  function GeneralPass(entries: seq<(string, JsValue)>, info: map<string, string>, found: bool)
    : (out: (map<string, string>, bool))
    ensures out.1 <==> found || SomeGeneralKept(entries)
    ensures info.Keys <= out.0.Keys
    ensures forall k | k in out.0 ::
              (k in info && out.0[k] == info[k])
              || exists i | 0 <= i < |entries| :: entries[i].0 == k && GeneralKept(k, entries[i].1)
                                                  && out.0[k] == entries[i].1.s
    ensures found ==> forall k | k in out.0 && k !in info :: k in MetaKeys
    decreases |entries|
  {
    if entries == [] then (info, found)
    else
      var k, v := entries[0].0, entries[0].1;
      var rest := entries[1..];
      var out :=
        if found && k !in MetaKeys then GeneralPass(rest, info, found)
        else if GeneralKept(k, v) then GeneralPass(rest, info[k := v.s], true)
        else GeneralPass(rest, info, found);
      assert forall i | 0 <= i < |rest| :: rest[i] == entries[i + 1];
      assert SomeGeneralKept(rest) ==> SomeGeneralKept(entries);
      assert SomeGeneralKept(entries) && !GeneralKept(k, v) ==> SomeGeneralKept(rest);
      out
  }

  /**
   * getGenerationInfo: the PNG text entries that qualify, then the qualifying general-track
   * entries; `null` (None) exactly when nothing qualified in either source.
   */
  function GetGenerationInfo(general: Option<seq<(string, JsValue)>>, png: Option<map<string, string>>)
    : (r: Option<map<string, string>>)
    ensures r.None? <==>
              (png.None? || forall k | k in png.value :: !PngKeyKept(k))
              && (general.None? || !SomeGeneralKept(general.value))
    ensures r.Some? && png.Some? ==> forall k | k in png.value && PngKeyKept(k) :: k in r.value
    ensures r.Some? ==> r.value != map[]
    ensures r.Some? ==> forall k | k in r.value ::
              (png.Some? && k in png.value && PngKeyKept(k) && r.value[k] == png.value[k])
              || (general.Some? && exists i | 0 <= i < |general.value| ::
                    general.value[i].0 == k && GeneralKept(k, general.value[i].1)
                    && r.value[k] == general.value[i].1.s)
  {
    var info0 := if png.Some? then PngPass(png.value) else map[];
    var found0 := info0 != map[];
    assert found0 <==> png.Some? && exists k | k in png.value :: PngKeyKept(k) by {
      if png.Some? && exists k | k in png.value :: PngKeyKept(k) {
        var k :| k in png.value && PngKeyKept(k);
        assert k in info0;
      }
    }
    var out := if general.Some? then GeneralPass(general.value, info0, found0) else (info0, found0);
    assert out.1 <==> out.0 != map[] by {
      if general.Some? {
        if out.1 && !found0 {
          var i :| 0 <= i < |general.value| && GeneralKept(general.value[i].0, general.value[i].1);
          GeneralPassRecords(general.value, info0, found0);
        }
      }
    }
    if out.1 then Some(out.0) else None
  }

  /** Something was found before entry `i` of the general track is looked at. */
  predicate FoundBefore(entries: seq<(string, JsValue)>, found: bool, i: nat)
    requires i <= |entries|
  {
    found || exists j | 0 <= j < i :: GeneralKept(entries[j].0, entries[j].1)
  }

  /** Entry `i` is stored: it qualifies, and it is not an unlisted key met after a find. */
  predicate Accepted(entries: seq<(string, JsValue)>, found: bool, i: nat)
    requires i < |entries|
  {
    GeneralKept(entries[i].0, entries[i].1) && (entries[i].0 in MetaKeys || !FoundBefore(entries, found, i))
  }

  /** Entry `i` is the last stored entry with its key. */
  predicate LastAccepted(entries: seq<(string, JsValue)>, found: bool, i: nat)
    requires i < |entries|
  {
    Accepted(entries, found, i)
    && forall j | i < j < |entries| && Accepted(entries, found, j) :: entries[j].0 != entries[i].0
  }

  /** After the first entry, whether something was found is carried over to the rest. */
  lemma AcceptedShift(entries: seq<(string, JsValue)>, found: bool)
    requires entries != []
    ensures var found' := found || GeneralKept(entries[0].0, entries[0].1);
      forall i | 1 <= i < |entries| ::
        (FoundBefore(entries, found, i) <==> FoundBefore(entries[1..], found', i - 1))
        && (Accepted(entries, found, i) <==> Accepted(entries[1..], found', i - 1))
  {
    var rest := entries[1..];
    var found' := found || GeneralKept(entries[0].0, entries[0].1);
    forall i | 1 <= i < |entries|
      ensures FoundBefore(entries, found, i) <==> FoundBefore(rest, found', i - 1)
    {
      if FoundBefore(entries, found, i) && !found' {
        var j :| 0 <= j < i && GeneralKept(entries[j].0, entries[j].1);
        assert rest[j - 1] == entries[j];
      }
      if FoundBefore(rest, found', i - 1) && !found {
        if !GeneralKept(entries[0].0, entries[0].1) {
          var j :| 0 <= j < i - 1 && GeneralKept(rest[j].0, rest[j].1);
          assert entries[j + 1] == rest[j];
        }
      }
    }
  }

  /** One step of the general pass: the first entry is stored exactly when it is accepted. */
  lemma GeneralPassStep(entries: seq<(string, JsValue)>, info: map<string, string>, found: bool)
    requires entries != []
    ensures var found' := found || GeneralKept(entries[0].0, entries[0].1);
      var info' := if Accepted(entries, found, 0) then info[entries[0].0 := entries[0].1.s] else info;
      GeneralPass(entries, info, found) == GeneralPass(entries[1..], info', found')
  {
  }

  /** The general pass stores the key of every accepted entry. */
  lemma {:induction false} GeneralPassStoresAccepted(entries: seq<(string, JsValue)>, info: map<string, string>, found: bool)
    ensures forall i | 0 <= i < |entries| && Accepted(entries, found, i) :: entries[i].0 in GeneralPass(entries, info, found).0
    decreases |entries|
  {
    if entries != [] {
      var k0, v0 := entries[0].0, entries[0].1;
      var rest := entries[1..];
      var found' := found || GeneralKept(k0, v0);
      var info' := if Accepted(entries, found, 0) then info[k0 := v0.s] else info;
      GeneralPassStep(entries, info, found);
      GeneralPassStoresAccepted(rest, info', found');
      AcceptedShift(entries, found);
      var out := GeneralPass(entries, info, found);
      forall i | 0 <= i < |entries| && Accepted(entries, found, i)
        ensures entries[i].0 in out.0
      {
        if i == 0 {
          assert k0 in info';
        } else {
          assert rest[i - 1] == entries[i];
        }
      }
    }
  }

  /** A key no accepted entry has keeps the value it had before the general pass. */
  lemma {:induction false} GeneralPassKeepsOthers(entries: seq<(string, JsValue)>, info: map<string, string>, found: bool)
    ensures forall k | k in info && (forall i | 0 <= i < |entries| && Accepted(entries, found, i) :: entries[i].0 != k)
              :: GeneralPass(entries, info, found).0[k] == info[k]
    decreases |entries|
  {
    if entries != [] {
      var k0, v0 := entries[0].0, entries[0].1;
      var rest := entries[1..];
      var found' := found || GeneralKept(k0, v0);
      var info' := if Accepted(entries, found, 0) then info[k0 := v0.s] else info;
      GeneralPassStep(entries, info, found);
      GeneralPassKeepsOthers(rest, info', found');
      AcceptedShift(entries, found);
      forall k | k in info && (forall i | 0 <= i < |entries| && Accepted(entries, found, i) :: entries[i].0 != k)
        ensures GeneralPass(entries, info, found).0[k] == info[k]
      {
        forall j | 0 <= j < |rest| && Accepted(rest, found', j)
          ensures rest[j].0 != k
        {
          assert rest[j] == entries[j + 1];
        }
      }
    }
  }

  /** The value stored for a key is that of the last accepted entry with it. */
  lemma {:induction false} GeneralPassLastWins(entries: seq<(string, JsValue)>, info: map<string, string>, found: bool)
    ensures forall i | 0 <= i < |entries| && LastAccepted(entries, found, i) ::
              entries[i].0 in GeneralPass(entries, info, found).0
              && GeneralPass(entries, info, found).0[entries[i].0] == entries[i].1.s
    decreases |entries|
  {
    GeneralPassStoresAccepted(entries, info, found);
    if entries != [] {
      var k0, v0 := entries[0].0, entries[0].1;
      var rest := entries[1..];
      var found' := found || GeneralKept(k0, v0);
      var info' := if Accepted(entries, found, 0) then info[k0 := v0.s] else info;
      GeneralPassStep(entries, info, found);
      GeneralPassLastWins(rest, info', found');
      AcceptedShift(entries, found);
      var out := GeneralPass(entries, info, found);
      forall i | 0 <= i < |entries| && LastAccepted(entries, found, i)
        ensures entries[i].0 in out.0 && out.0[entries[i].0] == entries[i].1.s
      {
        if i == 0 {
          GeneralPassKeepsOthers(rest, info', found');
          forall j | 0 <= j < |rest| && Accepted(rest, found', j)
            ensures rest[j].0 != k0
          {
            assert rest[j] == entries[j + 1];
          }
        } else {
          assert rest[i - 1] == entries[i];
          forall j | i - 1 < j < |rest| && Accepted(rest, found', j)
            ensures rest[j].0 != rest[i - 1].0
          {
            assert rest[j] == entries[j + 1];
          }
        }
      }
    }
  }

  /**
   * getGenerationInfo keeps everything its passes accept: every accepted general-track
   * entry's key, with the value of the last accepted entry for that key, and every
   * qualifying PNG entry no accepted general-track entry overwrites.
   */
  lemma GetGenerationInfoComplete(general: Option<seq<(string, JsValue)>>, png: Option<map<string, string>>)
    ensures var r := GetGenerationInfo(general, png);
      var pngFound := png.Some? && exists k | k in png.value :: PngKeyKept(k);
      && (general.Some? ==>
            && (forall i | 0 <= i < |general.value| && Accepted(general.value, pngFound, i) ::
                  r.Some? && general.value[i].0 in r.value)
            && (forall i | 0 <= i < |general.value| && LastAccepted(general.value, pngFound, i) ::
                  r.Some? && r.value[general.value[i].0] == general.value[i].1.s))
      && (png.Some? ==> forall k | k in png.value && PngKeyKept(k)
            && (general.None? || forall i | 0 <= i < |general.value| && Accepted(general.value, pngFound, i) ::
                  general.value[i].0 != k)
            :: r.Some? && r.value[k] == png.value[k])
  {
    var info0 := if png.Some? then PngPass(png.value) else map[];
    var pngFound := png.Some? && exists k | k in png.value :: PngKeyKept(k);
    if pngFound {
      var k :| k in png.value && PngKeyKept(k);
      assert k in info0;
    }
    if general.Some? {
      GeneralPassStoresAccepted(general.value, info0, pngFound);
      GeneralPassLastWins(general.value, info0, pngFound);
      GeneralPassKeepsOthers(general.value, info0, pngFound);
      var g := general.value;
      forall i | 0 <= i < |g| && Accepted(g, pngFound, i)
        ensures SomeGeneralKept(g)
      {
      }
    }
  }

  /** Whenever the general pass reports a find, its map holds at least one entry. */
  lemma {:induction false} GeneralPassRecords(entries: seq<(string, JsValue)>, info: map<string, string>, found: bool)
    requires found ==> info != map[]
    ensures var out := GeneralPass(entries, info, found); out.1 ==> out.0 != map[]
    decreases |entries|
  {
    if entries != [] {
      var k, v := entries[0].0, entries[0].1;
      if found && k !in MetaKeys {
        GeneralPassRecords(entries[1..], info, found);
      } else if GeneralKept(k, v) {
        assert k in info[k := v.s];
        GeneralPassRecords(entries[1..], info[k := v.s], true);
      } else {
        GeneralPassRecords(entries[1..], info, found);
      }
    }
  }
}
