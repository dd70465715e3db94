/**
 Reading names back out of generated TypeScript
 (scripts/check_openapi_fresh.py, `_keys_at` and `generated_drift`).

 The generator's layout is modelled by a printer, and the indentation reader is
 proved to invert it; for one line, exactly on the names it can invert.
 */
module GeneratedNames {
  import opened Ordering

  // ----- string operations -----------------------------------------------------------

  predicate StartsWith(s: string, prefix: string) {
    |prefix| <= |s| && s[..|prefix|] == prefix
  }

  function Spaces(n: nat): (r: string)
    ensures |r| == n && forall i :: 0 <= i < n ==> r[i] == ' '
  {
    seq(n, _ => ' ')
  }

  /** `s.partition(sep)[0]`: what precedes the first separator, or all of `s`. */
  function Before(s: string, sep: char): string {
    if s == "" || s[0] == sep then "" else [s[0]] + Before(s[1..], sep)
  }

  function RStripChar(s: string, c: char): (r: string)
    ensures |r| <= |s| && r == s[..|r|]
  {
    if s != "" && s[|s| - 1] == c then RStripChar(s[..|s| - 1], c) else s
  }

  function LStripChar(s: string, c: char): (r: string)
    ensures |r| <= |s| && r == s[|s| - |r|..]
  {
    if s != "" && s[0] == c then LStripChar(s[1..], c) else s
  }

  /** `key.rstrip("?").strip('"')`. */
  function CleanKey(key: string): string {
    RStripChar(LStripChar(RStripChar(key, '?'), '"'), '"')
  }

  // ----- the reader ---------------------------------------------------------------------

  datatype Read = Stop | Skip | Key(name: string)

  /** What one line of a block means to the reader. */
  function ReadLine(line: string, pad: string): Read {
    var stripped := Strip(line);
    if stripped != "" && !StartsWith(line, pad) then Stop
    else if !StartsWith(line, pad) || StartsWith(line, pad + " ") then Skip
    else if ':' !in stripped then Skip
    else Key(CleanKey(Before(stripped, ':')))
  }

  function KeysFrom(lines: seq<string>, pad: string): set<string> {
    if lines == [] then {}
    else match ReadLine(lines[0], pad)
         case Stop => {}
         case Skip => KeysFrom(lines[1..], pad)
         case Key(name) => {name} + KeysFrom(lines[1..], pad)
  }

  /** The lines after the first occurrence of the header. */
  function AfterHeader(lines: seq<string>, header: string): seq<string> {
    if lines == [] then [] else if lines[0] == header then lines[1..] else AfterHeader(lines[1..], header)
  }

  function KeysSpec(lines: seq<string>, header: string, indent: nat): set<string> {
    KeysFrom(AfterHeader(lines, header), Spaces(indent))
  }

  // ----- what the reader finds, line by line ---------------------------------------------

  /** The line ends a block whose keys stand at the indent: it says something, and stands
      shallower. */
  ghost predicate Closes(line: string, indent: nat) {
    Strip(line) != "" && !StartsWith(line, Spaces(indent))
  }

  /** The line stands exactly at the indent and declares the name: what precedes its first
      colon, without the optional mark and the quotes. */
  ghost predicate Declares(line: string, indent: nat, name: string) {
    && StartsWith(line, Spaces(indent)) && !StartsWith(line, Spaces(indent + 1))
    && exists j :: 0 <= j < |Strip(line)| && Strip(line)[j] == ':' && ':' !in Strip(line)[..j] && name == CleanKey(Strip(line)[..j])
  }

  /** The block after the first header declares the name before anything closes it. */
  ghost predicate DeclaredIn(lines: seq<string>, header: string, indent: nat, name: string) {
    exists h, i :: 0 <= h < i < |lines| && lines[h] == header && header !in lines[..h] &&
                   Declares(lines[i], indent, name) && forall k :: h < k < i ==> !Closes(lines[k], indent)
  }

  lemma StopsIff(line: string, indent: nat)
    ensures ReadLine(line, Spaces(indent)) == Stop <==> Closes(line, indent)
  {
  }

  lemma {:induction false} BeforeIs(s: string, sep: char, j: nat)
    requires j < |s| && s[j] == sep && sep !in s[..j]
    ensures Before(s, sep) == s[..j]
  {
    if j > 0 {
      assert s[..j][0] == s[0];
      assert s[1..][..j - 1] == s[..j][1..];
      BeforeIs(s[1..], sep, j - 1);
      assert s[..j] == [s[0]] + s[1..][..j - 1];
    }
  }

  lemma {:induction false} FirstOf(s: string, sep: char) returns (j: nat)
    requires sep in s
    ensures j < |s| && s[j] == sep && sep !in s[..j]
  {
    if s[0] == sep {
      j := 0;
    } else {
      var i := FirstOf(s[1..], sep);
      j := i + 1;
      assert s[..j] == [s[0]] + s[1..][..i];
    }
  }

  lemma PadOne(indent: nat)
    ensures Spaces(indent) + " " == Spaces(indent + 1)
  {
  }

  lemma DeclaresIff(line: string, indent: nat, name: string)
    ensures ReadLine(line, Spaces(indent)) == Key(name) <==> Declares(line, indent, name)
  {
    hide Strip, CleanKey;
    PadOne(indent);
    var s := Strip(line);
    if ':' in s {
      var j := FirstOf(s, ':');
      BeforeIs(s, ':', j);
      forall i | 0 <= i < |s| && s[i] == ':' && ':' !in s[..i] ensures i == j {}
    }
  }

  /** The names declared in lines until the first that closes. */
  ghost predicate DeclaredFirst(lines: seq<string>, indent: nat, name: string) {
    exists i :: 0 <= i < |lines| && Declares(lines[i], indent, name) && forall k :: 0 <= k < i ==> !Closes(lines[k], indent)
  }

  lemma {:induction false} KeysFromIff(lines: seq<string>, indent: nat, name: string)
    ensures name in KeysFrom(lines, Spaces(indent)) <==> DeclaredFirst(lines, indent, name)
  {
    hide ReadLine, Declares, Closes;
    if lines != [] {
      var rest := lines[1..];
      KeysFromIff(rest, indent, name);
      StopsIff(lines[0], indent);
      DeclaresIff(lines[0], indent, name);
      if i :| 0 <= i < |lines| && Declares(lines[i], indent, name) && forall k :: 0 <= k < i ==> !Closes(lines[k], indent) {
        if i > 0 { assert rest[i - 1] == lines[i] && forall k :: 0 <= k < i - 1 ==> rest[k] == lines[k + 1]; }
      }
      if i :| 0 <= i < |rest| && Declares(rest[i], indent, name) && forall k :: 0 <= k < i ==> !Closes(rest[k], indent) {
        assert lines[i + 1] == rest[i] && forall k :: 0 < k < i + 1 ==> lines[k] == rest[k - 1];
      }
    }
  }

  lemma {:induction false} HeaderIs(lines: seq<string>, header: string) returns (h: nat)
    ensures h <= |lines| && header !in lines[..h]
    ensures if h == |lines| then AfterHeader(lines, header) == [] else lines[h] == header && AfterHeader(lines, header) == lines[h + 1..]
  {
    if lines == [] || lines[0] == header {
      h := 0;
    } else {
      var i := HeaderIs(lines[1..], header);
      h := i + 1;
      assert lines[..h] == [lines[0]] + lines[1..][..i];
    }
  }

  lemma KeysSpecIff(lines: seq<string>, header: string, indent: nat, name: string)
    ensures name in KeysSpec(lines, header, indent) <==> DeclaredIn(lines, header, indent, name)
  {
    hide KeysFrom, AfterHeader, Declares, Closes;
    var h := HeaderIs(lines, header);
    var rest := AfterHeader(lines, header);
    KeysFromIff(rest, indent, name);
    if g, i :| 0 <= g < i < |lines| && lines[g] == header && header !in lines[..g] && Declares(lines[i], indent, name) && forall k :: g < k < i ==> !Closes(lines[k], indent) {
      assert g == h;
      assert rest[i - h - 1] == lines[i] && forall k :: 0 <= k < i - h - 1 ==> rest[k] == lines[k + h + 1];
    }
    if i :| 0 <= i < |rest| && Declares(rest[i], indent, name) && forall k :: 0 <= k < i ==> !Closes(rest[k], indent) {
      assert lines[h + 1 + i] == rest[i] && forall k :: h < k < h + 1 + i ==> lines[k] == rest[k - h - 1];
    }
  }

  /** Nothing after the first closing line matters. */
  lemma {:induction false} KeysFromCut(a: seq<string>, close: string, b: seq<string>, indent: nat)
    requires Closes(close, indent)
    ensures KeysFrom(a + [close] + b, Spaces(indent)) == KeysFrom(a, Spaces(indent))
  {
    StopsIff(close, indent);
    var all := a + [close] + b;
    if a == [] {
      assert all[0] == close;
    } else {
      assert all[0] == a[0] && all[1..] == a[1..] + [close] + b;
      KeysFromCut(a[1..], close, b, indent);
    }
  }

  // ----- the loops ------------------------------------------------------------------------

  /** `lines.index(header)`, then the rest of the text. */
  method FindHeader(lines: seq<string>, header: string) returns (rest: seq<string>)
    ensures rest == AfterHeader(lines, header)
  {
    var start := 0;
    while start < |lines| && lines[start] != header
      invariant 0 <= start <= |lines|
      invariant AfterHeader(lines, header) == AfterHeader(lines[start..], header)
    {
      assert lines[start..][1..] == lines[start + 1..];
      start := start + 1;
    }
    rest := if start == |lines| then [] else lines[start + 1..];
    if start < |lines| {
      assert lines[start..][1..] == lines[start + 1..];
    }
  }

  /** `_keys_at`: exactly the names the block declares. */
  method KeysAt(lines: seq<string>, header: string, indent: nat) returns (names: set<string>)
    ensures forall n :: n in names <==> DeclaredIn(lines, header, indent, n)
    ensures names == KeysSpec(lines, header, indent)
  {
    hide DeclaredIn;
    forall n ensures n in KeysSpec(lines, header, indent) <==> DeclaredIn(lines, header, indent, n) {
      KeysSpecIff(lines, header, indent, n);
    }
    names := {};
    var rest := FindHeader(lines, header);
    var pad := Spaces(indent);
    var i := 0;
    while i < |rest|
      invariant 0 <= i <= |rest|
      invariant KeysFrom(rest, pad) == names + KeysFrom(rest[i..], pad)
    {
      assert rest[i..][1..] == rest[i + 1..];
      match ReadLine(rest[i], pad) {
        case Stop => break;
        case Skip =>
        case Key(name) => names := names + {name};
      }
      i := i + 1;
    }
  }

  // ----- the printer ----------------------------------------------------------------------

  /** One key line: the name, quoted or bare, optionally marked `?`, a colon, and
      whatever the generator renders after it. */
  function KeyLine(pad: string, name: string, quoted: bool, optional: bool, rest: string): string {
    pad + Spelled(name, quoted, optional) + ":" + rest
  }

  function Spelled(name: string, quoted: bool, optional: bool): string {
    (if quoted then "\"" + name + "\"" else name) + (if optional then "?" else "")
  }

  /** Does this spelling of the name survive the reader? */
  predicate Readable(name: string, quoted: bool) {
    && ':' !in name
    && (name != "" ==> name[0] != '"' && name[|name| - 1] != '"')
    && (!quoted && name != "" ==> !IsSpace(name[0]) && name[|name| - 1] != '?')
  }

  // ----- stripping a printed line -----------------------------------------------------------

  lemma {:induction false} LStripSpaces(a: string, b: string)
    requires forall i :: 0 <= i < |a| ==> IsSpace(a[i])
    ensures LStrip(a + b) == LStrip(b)
  {
    if a == "" {
      assert a + b == b;
    } else {
      assert (a + b)[0] == a[0] && (a + b)[1..] == a[1..] + b;
      LStripSpaces(a[1..], b);
    }
  }

  lemma {:induction false} LStripFront(a: string, b: string)
    requires b != "" && !IsSpace(b[0])
    ensures LStrip(a + b) == LStrip(a) + b
  {
    if a == "" {
      assert a + b == b;
    } else if IsSpace(a[0]) {
      assert (a + b)[0] == a[0] && (a + b)[1..] == a[1..] + b;
      LStripFront(a[1..], b);
    }
  }

  lemma {:induction false} RStripBack(a: string, b: string)
    requires a != "" && !IsSpace(a[|a| - 1])
    ensures RStrip(a + b) == a + RStrip(b)
  {
    if b == "" {
      assert a + b == a;
    } else {
      assert (a + b)[|a + b| - 1] == b[|b| - 1];
      if IsSpace(b[|b| - 1]) {
        assert (a + b)[..|a + b| - 1] == a + b[..|b| - 1];
        RStripBack(a, b[..|b| - 1]);
      }
    }
  }

  /** Stripping takes the indent, and leading space of the spelling, and trailing
      space of the rest: the colon stands. */
  lemma StripKeyLine(indent: nat, spelled: string, rest: string)
    ensures Strip(Spaces(indent) + spelled + ":" + rest) == LStrip(spelled) + ":" + RStrip(rest)
  {
    var pad := Spaces(indent);
    var tail := ":" + rest;
    assert pad + spelled + ":" + rest == pad + (spelled + tail);
    LStripSpaces(pad, spelled + tail);
    LStripFront(spelled, tail);
    var head := LStrip(spelled) + ":";
    assert LStrip(spelled) + tail == head + rest;
    RStripBack(head, rest);
  }

  lemma {:induction false} BeforeAppend(a: string, b: string, sep: char)
    ensures sep !in a ==> Before(a + [sep] + b, sep) == a
    ensures sep in a ==> Before(a + [sep] + b, sep) == Before(a, sep)
  {
    if a != "" {
      assert (a + [sep] + b)[1..] == a[1..] + [sep] + b;
      if a[0] != sep {
        BeforeAppend(a[1..], b, sep);
      }
    }
  }

  lemma {:induction false} BeforeWhole(s: string, sep: char)
    requires sep !in s
    ensures Before(s, sep) == s
  {
    if s != "" {
      BeforeWhole(s[1..], sep);
      assert s == [s[0]] + s[1..];
    }
  }

  lemma {:induction false} BeforeHasNone(s: string, sep: char)
    ensures sep !in Before(s, sep)
  {
    if s != "" && s[0] != sep { BeforeHasNone(s[1..], sep); }
  }

  // ----- cleaning a spelled key -----------------------------------------------------------------

  lemma {:induction false} RStripMark(s: string, optional: bool)
    ensures RStripChar(s + (if optional then "?" else ""), '?') == RStripChar(s, '?')
  {
    if optional {
      assert (s + "?")[..|s|] == s;
    } else {
      assert s + "" == s;
    }
  }

  /** Quotes around a name come off, and so do quotes at its own ends. */
  lemma QuotesComeOff(name: string)
    requires name == "" || name[0] != '"'
    ensures RStripChar(LStripChar("\"" + name + "\"", '"'), '"') == RStripChar(name, '"')
  {
    var q := "\"" + name + "\"";
    var inner := name + "\"";
    assert q[0] == '"' && q[1..] == inner;
    if name == "" {
      assert inner == "\"" && inner[1..] == "";
      assert LStripChar(inner, '"') == "";
    } else {
      assert inner[0] == name[0];
      assert LStripChar(inner, '"') == inner;
      assert inner[|inner| - 1] == '"' && inner[..|inner| - 1] == name;
    }
  }

  lemma {:induction false} LStripFirst(s: string, c: char)
    ensures LStripChar(s, c) == "" || LStripChar(s, c)[0] != c
  {
    if s != "" && s[0] == c { LStripFirst(s[1..], c); }
  }

  lemma {:induction false} RStripLast(s: string, c: char)
    ensures RStripChar(s, c) == "" || RStripChar(s, c)[|RStripChar(s, c)| - 1] != c
  {
    if s != "" && s[|s| - 1] == c { RStripLast(s[..|s| - 1], c); }
  }

  /** A cleaned key neither starts nor ends with a quote. */
  lemma CleanHasNoQuotes(key: string)
    ensures var r := CleanKey(key); r == "" || (r[0] != '"' && r[|r| - 1] != '"')
  {
    var a := LStripChar(RStripChar(key, '?'), '"');
    LStripFirst(RStripChar(key, '?'), '"');
    RStripLast(a, '"');
  }

  /** Cleaning invents no characters and makes nothing longer. */
  lemma CleanIsInside(key: string, c: char)
    ensures |CleanKey(key)| <= |RStripChar(key, '?')| <= |key|
    ensures c !in key ==> c !in CleanKey(key)
  {
    var a := RStripChar(key, '?');
    var b := LStripChar(a, '"');
    assert forall x :: x in a ==> x in key;
    assert forall x :: x in b ==> x in a;
  }

  lemma QuotedKey(name: string, optional: bool)
    ensures CleanKey(Before(Spelled(name, true, optional), ':')) == name <==> Readable(name, true)
  {
    var spelled := Spelled(name, true, optional);
    if ':' in name {
      BeforeHasNone(spelled, ':');
      CleanIsInside(Before(spelled, ':'), ':');
    } else {
      assert ':' !in spelled;
      BeforeWhole(spelled, ':');
      CleanHasNoQuotes(spelled);
      if name == "" || name[0] != '"' {
        QuotedPlain(name, optional);
      }
    }
  }

  lemma QuotedPlain(name: string, optional: bool)
    requires name == "" || name[0] != '"'
    ensures CleanKey(Spelled(name, true, optional)) == RStripChar(name, '"')
    ensures name == "" || name[|name| - 1] != '"' ==> RStripChar(name, '"') == name
  {
    var q := "\"" + name + "\"";
    RStripMark(q, optional);
    assert q[|q| - 1] == '"' && RStripChar(q, '?') == q;
    QuotesComeOff(name);
  }

  lemma BareKey(name: string, optional: bool)
    ensures CleanKey(Before(LStrip(Spelled(name, false, optional)), ':')) == name <==> Readable(name, false)
  {
    if ':' in name {
      var key := Before(LStrip(Spelled(name, false, optional)), ':');
      BeforeHasNone(LStrip(Spelled(name, false, optional)), ':');
      CleanIsInside(key, ':');
    } else if name == "" {
      BareEmpty(optional);
    } else if IsSpace(name[0]) {
      BareLeadingSpace(name, optional);
    } else {
      BarePlain(name, optional);
      PlainNameIff(name);
    }
  }

  /** A bare name that starts with something: only the marks at its ends matter. */
  lemma BarePlain(name: string, optional: bool)
    requires name != "" && !IsSpace(name[0]) && ':' !in name
    ensures Before(LStrip(Spelled(name, false, optional)), ':') == Spelled(name, false, optional)
    ensures CleanKey(Spelled(name, false, optional)) == CleanKey(name)
  {
    var spelled := Spelled(name, false, optional);
    assert spelled[0] == name[0];
    assert LStrip(spelled) == spelled;
    BeforeWhole(spelled, ':');
    RStripMark(name, optional);
  }

  lemma PlainNameIff(name: string)
    requires name != ""
    ensures CleanKey(name) == name <==> name[0] != '"' && name[|name| - 1] != '"' && name[|name| - 1] != '?'
  {
    hide CleanKey;
    if name[0] != '"' && name[|name| - 1] != '"' && name[|name| - 1] != '?' {
      PlainIsClean(name);
    } else {
      MarkedIsCleaned(name);
    }
  }

  lemma PlainIsClean(name: string)
    requires name != "" && name[0] != '"' && name[|name| - 1] != '"' && name[|name| - 1] != '?'
    ensures CleanKey(name) == name
  {
    hide RStripChar, LStripChar;
    MarkComesOff(name, '?');
    MarkComesOff(name, '"');
  }

  lemma MarkedIsCleaned(name: string)
    requires name != "" && (name[0] == '"' || name[|name| - 1] == '"' || name[|name| - 1] == '?')
    ensures CleanKey(name) != name
  {
    hide CleanKey, RStripChar, LStripChar;
    CleanHasNoQuotes(name);
    CleanIsInside(name, ':');
    MarkComesOff(name, '?');
  }

  lemma MarkComesOff(name: string, c: char)
    requires name != ""
    ensures if name[|name| - 1] == c then |RStripChar(name, c)| < |name| else RStripChar(name, c) == name
    ensures name[0] != c ==> LStripChar(name, c) == name
  {
  }

  lemma BareEmpty(optional: bool)
    ensures CleanKey(Before(LStrip(Spelled("", false, optional)), ':')) == ""
  {
    var spelled := Spelled("", false, optional);
    assert spelled == if optional then "?" else "";
    assert LStrip(spelled) == spelled;
    BeforeWhole(spelled, ':');
    RStripMark("", optional);
    assert "" + spelled == spelled;
  }

  lemma {:induction false} LStripIsSuffix(s: string)
    ensures |LStrip(s)| <= |s| && LStrip(s) == s[|s| - |LStrip(s)|..]
  {
    if s != "" && IsSpace(s[0]) { LStripIsSuffix(s[1..]); }
  }

  /** Leading whitespace of a bare name is gone before the key is read. */
  lemma BareLeadingSpace(name: string, optional: bool)
    requires name != "" && IsSpace(name[0]) && ':' !in name
    ensures |CleanKey(Before(LStrip(Spelled(name, false, optional)), ':'))| < |name|
  {
    var spelled := Spelled(name, false, optional);
    assert spelled[0] == name[0];
    var key := LStrip(spelled);
    assert key == LStrip(spelled[1..]);
    LStripIsSuffix(spelled[1..]);
    LStripIsSuffix(spelled);
    assert ':' !in key by { assert forall c :: c in key ==> c in spelled; }
    BeforeWhole(key, ':');
    CleanIsInside(key, ':');
    if optional && key != "" {
      assert key[|key| - 1] == spelled[|spelled| - 1] == '?';
      assert |RStripChar(key, '?')| < |key|;
    }
  }

  // ----- one line, both directions -----------------------------------------------------------------

  /** The reader gets a printed name back if and only if its spelling is readable. */
  lemma KeyLineIff(indent: nat, name: string, quoted: bool, optional: bool, rest: string)
    ensures ReadLine(KeyLine(Spaces(indent), name, quoted, optional, rest), Spaces(indent)) == Key(name) <==>
            Readable(name, quoted)
  {
    if quoted {
      QuotedLineIff(indent, name, optional, rest);
    } else {
      BareLineIff(indent, name, optional, rest);
    }
  }

  lemma QuotedLineIff(indent: nat, name: string, optional: bool, rest: string)
    ensures ReadLine(KeyLine(Spaces(indent), name, true, optional, rest), Spaces(indent)) == Key(name) <==> Readable(name, true)
  {
    var spelled := Spelled(name, true, optional);
    ReadKeyLine(indent, spelled, rest);
    QuotedStart(name, optional);
    QuotedKey(name, optional);
    hide Spelled, ReadLine, LStrip, CleanKey, Before, Readable;
  }

  lemma QuotedStart(name: string, optional: bool)
    ensures var spelled := Spelled(name, true, optional); spelled != "" && spelled[0] == '"' && LStrip(spelled) == spelled
  {
    assert Spelled(name, true, optional)[0] == '"';
  }

  lemma BareLineIff(indent: nat, name: string, optional: bool, rest: string)
    ensures ReadLine(KeyLine(Spaces(indent), name, false, optional, rest), Spaces(indent)) == Key(name) <==> Readable(name, false)
  {
    var spelled := Spelled(name, false, optional);
    ReadKeyLine(indent, spelled, rest);
    BareKey(name, optional);
    BareStartsWithSpace(name, optional);
  }

  lemma BareStartsWithSpace(name: string, optional: bool)
    ensures var spelled := Spelled(name, false, optional);
            spelled != "" && spelled[0] == ' ' ==> name != "" && !Readable(name, false)
  {
    var spelled := Spelled(name, false, optional);
    assert name == "" ==> spelled == if optional then "?" else "";
    assert name != "" ==> spelled[0] == name[0];
    assert IsSpace(' ');
  }

  lemma ReadKeyLine(indent: nat, spelled: string, rest: string)
    ensures ReadLine(Spaces(indent) + spelled + ":" + rest, Spaces(indent)) ==
            if spelled != "" && spelled[0] == ' ' then Skip else Key(CleanKey(Before(LStrip(spelled), ':')))
  {
    var pad := Spaces(indent);
    var line := pad + spelled + ":" + rest;
    StripKeyLine(indent, spelled, rest);
    LineStarts(indent, spelled, rest);
    var stripped := LStrip(spelled) + ":" + RStrip(rest);
    assert stripped[|LStrip(spelled)|] == ':';
    BeforeAppend(LStrip(spelled), RStrip(rest), ':');
    if ':' !in LStrip(spelled) {
      BeforeWhole(LStrip(spelled), ':');
    }
  }

  lemma LineStarts(indent: nat, spelled: string, rest: string)
    ensures var pad := Spaces(indent); var line := pad + spelled + ":" + rest;
            StartsWith(line, pad) && (StartsWith(line, pad + " ") <==> spelled != "" && spelled[0] == ' ')
  {
    var pad := Spaces(indent);
    var line := pad + spelled + ":" + rest;
    assert line[..|pad|] == pad;
    assert line[|pad|] == if spelled == "" then ':' else spelled[0];
    assert line[..|pad| + 1] == pad + [line[|pad|]];
    if StartsWith(line, pad + " ") {
      assert (pad + " ")[|pad|] == line[..|pad| + 1][|pad|];
    }
  }

  // ----- a whole block --------------------------------------------------------------------------------

  /** A line inside the block that declares nothing: blank, deeper, or a closing
      brace at the block's own indent. */
  ghost predicate Filler(line: string, pad: string) {
    Strip(line) == "" || (StartsWith(line, pad) && (StartsWith(line, pad + " ") || ':' !in Strip(line)))
  }

  /** Those are exactly the lines the reader passes over. */
  lemma FillerSkips(line: string, pad: string)
    ensures ReadLine(line, pad) == Skip <==> Filler(line, pad)
  {
  }

  datatype Member = Member(name: string, quoted: bool, optional: bool, rest: string, body: seq<string>)

  function PrintBlock(members: seq<Member>, pad: string): seq<string> {
    if members == [] then []
    else
      var m := members[0];
      [KeyLine(pad, m.name, m.quoted, m.optional, m.rest)] + m.body + PrintBlock(members[1..], pad)
  }

  ghost predicate WellPrinted(members: seq<Member>, pad: string) {
    forall m :: m in members ==> Readable(m.name, m.quoted) && forall l :: l in m.body ==> Filler(l, pad)
  }

  function NamesIn(members: seq<Member>): set<string> {
    set m | m in members :: m.name
  }

  lemma {:induction false} FillersSkip(body: seq<string>, rest: seq<string>, pad: string)
    requires forall l :: l in body ==> Filler(l, pad)
    ensures KeysFrom(body + rest, pad) == KeysFrom(rest, pad)
  {
    if body == [] {
      assert body + rest == rest;
    } else {
      FillerSkips(body[0], pad);
      assert (body + rest)[1..] == body[1..] + rest;
      FillersSkip(body[1..], rest, pad);
    }
  }

  lemma PrintSplits(members: seq<Member>, pad: string, rest: seq<string>)
    requires members != []
    ensures var m := members[0];
            PrintBlock(members, pad) + rest ==
            [KeyLine(pad, m.name, m.quoted, m.optional, m.rest)] + (m.body + (PrintBlock(members[1..], pad) + rest))
  {
  }

  lemma NamesSplit(members: seq<Member>)
    requires members != []
    ensures NamesIn(members) == {members[0].name} + NamesIn(members[1..])
  {
    assert members == [members[0]] + members[1..];
  }

  lemma {:induction false} BlockReadsBack(members: seq<Member>, indent: nat, rest: seq<string>)
    requires WellPrinted(members, Spaces(indent))
    ensures KeysFrom(PrintBlock(members, Spaces(indent)) + rest, Spaces(indent)) == NamesIn(members) + KeysFrom(rest, Spaces(indent))
  {
    var pad := Spaces(indent);
    if members == [] {
      assert PrintBlock(members, pad) + rest == rest;
    } else {
      var m := members[0];
      BlockReadsBack(members[1..], indent, rest);
      PrintSplits(members, pad, rest);
      MemberReadsBack(m, indent, PrintBlock(members[1..], pad) + rest);
      NamesSplit(members);
    }
  }

  lemma MemberReadsBack(m: Member, indent: nat, more: seq<string>)
    requires Readable(m.name, m.quoted) && forall l :: l in m.body ==> Filler(l, Spaces(indent))
    ensures KeysFrom([KeyLine(Spaces(indent), m.name, m.quoted, m.optional, m.rest)] + (m.body + more), Spaces(indent)) ==
            {m.name} + KeysFrom(more, Spaces(indent))
  {
    var pad := Spaces(indent);
    var line := KeyLine(pad, m.name, m.quoted, m.optional, m.rest);
    KeyLineIff(indent, m.name, m.quoted, m.optional, m.rest);
    FillersSkip(m.body, more, pad);
    assert ([line] + (m.body + more))[1..] == m.body + more;
  }

  lemma {:induction false} HeaderFound(before: seq<string>, header: string, after: seq<string>)
    requires header !in before
    ensures AfterHeader(before + [header] + after, header) == after
  {
    var all := before + [header] + after;
    if before == [] {
      assert all[1..] == after;
    } else {
      assert all[1..] == before[1..] + [header] + after;
      HeaderFound(before[1..], header, after);
    }
  }

  /** One printed section of a file, with whatever surrounds it: its header occurs
      first there, and a shallower line closes it. */
  ghost predicate Section(lines: seq<string>, header: string, indent: nat, members: seq<Member>) {
    exists before, close, rest ::
      && header !in before && WellPrinted(members, Spaces(indent))
      && Closes(close, indent)
      && lines == before + [header] + (PrintBlock(members, Spaces(indent)) + ([close] + rest))
  }

  /** The reader returns exactly the names the generator printed. */
  lemma SectionReadsBack(lines: seq<string>, header: string, indent: nat, members: seq<Member>)
    requires Section(lines, header, indent, members)
    ensures KeysSpec(lines, header, indent) == NamesIn(members)
  {
    var before, close, rest :|
      && header !in before && WellPrinted(members, Spaces(indent))
      && Closes(close, indent)
      && lines == before + [header] + (PrintBlock(members, Spaces(indent)) + ([close] + rest));
    StopsIff(close, indent);
    HeaderFound(before, header, PrintBlock(members, Spaces(indent)) + ([close] + rest));
    BlockReadsBack(members, indent, [close] + rest);
    assert ([close] + rest)[0] == close;
  }

  // ----- drift -------------------------------------------------------------------------------------------

  datatype Names = Names(paths: set<string>, schemas: set<string>, operations: set<string>)

  datatype Part = PATHS | SCHEMAS | OPERATIONS

  datatype DriftLine = ReaderBroken(part: Part) | Missing(part: Part, name: string) | Extra(part: Part, name: string)

  const PATHS_HEADER := "export interface paths {"
  const SCHEMAS_HEADER := "    schemas: {"
  const OPERATIONS_HEADER := "export interface operations {"

  /** The line is one that comparing the wanted with the found names calls for: where
      names are wanted and none is found the reader is blamed and nothing else is said. */
  ghost predicate DriftsBy(part: Part, want: set<string>, found: set<string>, d: DriftLine) {
    d.part == part &&
    match d
    case ReaderBroken(_) => want != {} && found == {}
    case Missing(_, n) => n in want && n !in found && found != {}
    case Extra(_, n) => n in found && n !in want
  }

  /** One turn of `generated_drift`. */
  method DriftOf(part: Part, want: set<string>, found: set<string>) returns (lines: seq<DriftLine>)
    ensures forall d :: d in lines <==> DriftsBy(part, want, found, d)
    ensures lines == [] <==> want == found
  {
    if want != {} && found == {} {
      return [ReaderBroken(part)];
    }
    var missing, extra := SortedNames(want - found), SortedNames(found - want);
    var first := seq(|missing|, i requires 0 <= i < |missing| => Missing(part, missing[i]));
    var second := seq(|extra|, i requires 0 <= i < |extra| => Extra(part, extra[i]));
    lines := first + second;
    assert |lines| == |missing| + |extra|;
    assert missing == [] <==> want <= found by {
      if missing == [] { forall n | n in want ensures n in found { assert n !in missing; } }
      if missing != [] { assert missing[0] in missing; }
    }
    assert extra == [] <==> found <= want by {
      if extra == [] { forall n | n in found ensures n in want { assert n !in extra; } }
      if extra != [] { assert extra[0] in extra; }
    }
    assert forall d :: d in lines <==> d in first || d in second;
    forall d | d in first ensures DriftsBy(part, want, found, d) {
      var i :| 0 <= i < |first| && first[i] == d;
      assert missing[i] in missing;
    }
    forall d | d in second ensures DriftsBy(part, want, found, d) {
      var i :| 0 <= i < |second| && second[i] == d;
      assert extra[i] in extra;
    }
    forall d | DriftsBy(part, want, found, d) ensures d in lines {
      if d.Missing? {
        assert d.name in missing;
        var i :| 0 <= i < |missing| && missing[i] == d.name;
        assert first[i] == d;
      } else {
        assert d.name in extra;
        var i :| 0 <= i < |extra| && extra[i] == d.name;
        assert second[i] == d;
      }
    }
  }

  /** `generated_drift`: exactly the lines the three comparisons call for. */
  method GeneratedDrift(want: Names, lines: seq<string>) returns (drift: seq<DriftLine>)
    ensures forall d :: d in drift <==>
                          || DriftsBy(PATHS, want.paths, KeysSpec(lines, "export interface paths {", 4), d)
                          || DriftsBy(SCHEMAS, want.schemas, KeysSpec(lines, "    schemas: {", 8), d)
                          || DriftsBy(OPERATIONS, want.operations, KeysSpec(lines, "export interface operations {", 4), d)
    ensures drift == [] <==>
            && want.paths == KeysSpec(lines, PATHS_HEADER, 4)
            && want.schemas == KeysSpec(lines, SCHEMAS_HEADER, 8)
            && want.operations == KeysSpec(lines, OPERATIONS_HEADER, 4)
  {
    var paths := KeysAt(lines, PATHS_HEADER, 4);
    var first := DriftOf(PATHS, want.paths, paths);
    var schemas := KeysAt(lines, SCHEMAS_HEADER, 8);
    var second := DriftOf(SCHEMAS, want.schemas, schemas);
    var operations := KeysAt(lines, OPERATIONS_HEADER, 4);
    var third := DriftOf(OPERATIONS, want.operations, operations);
    drift := first + second + third;
  }

  /** On a file the generator printed, there is no drift exactly when it was
      printed from these names. */
  lemma DriftIff(want: Names, lines: seq<string>, paths: seq<Member>, schemas: seq<Member>, operations: seq<Member>)
    requires Section(lines, PATHS_HEADER, 4, paths)
    requires Section(lines, SCHEMAS_HEADER, 8, schemas)
    requires Section(lines, OPERATIONS_HEADER, 4, operations)
    ensures && want.paths == KeysSpec(lines, PATHS_HEADER, 4)
            && want.schemas == KeysSpec(lines, SCHEMAS_HEADER, 8)
            && want.operations == KeysSpec(lines, OPERATIONS_HEADER, 4)
            <==>
            want == Names(NamesIn(paths), NamesIn(schemas), NamesIn(operations))
  {
    SectionReadsBack(lines, PATHS_HEADER, 4, paths);
    SectionReadsBack(lines, SCHEMAS_HEADER, 8, schemas);
    SectionReadsBack(lines, OPERATIONS_HEADER, 4, operations);
  }
}
