/** `update_config_section` of simple_server.py: the text of a Python
    settings module is split into lines, the block `NAME = { … }` is
    located by a line scan, and it is replaced by a block regenerated from
    new values. */
module ConfigRewrite {
  import opened Wrappers
  import opened Text

  // ---------------------------------------------------------------------
  // Recognising the block

  /** `re.match(rf"^{name}\s*=\s*\{", t)`, the name taken literally. */
  predicate StartMatch(t: string, name: string) {
    && StartsWith(t, name)
    && var i := SkipSpaces(t, |name|);
       && i < |t| && t[i] == '='
       && var j := SkipSpaces(t, i + 1);
          j < |t| && t[j] == '{'
  }

  /** How the scan sees a line: opening the block (stripped, it matches the
      opening pattern), closing it (stripped, it begins with `}`; tested
      only when the line is not an opening one), or neither. */
  datatype LineKind = Opening | Closing | Other

  function Kind(line: string, name: string): (k: LineKind)
    ensures k == Opening <==> StartMatch(Strip(line), name)
    ensures k == Closing <==> !StartMatch(Strip(line), name) && StartsWith(Strip(line), "}")
  {
    var t := Strip(line);
    if StartMatch(t, name) then Opening
    else if StartsWith(t, "}") then Closing
    else Other
  }

  function Kinds(lines: seq<string>, name: string): (ks: seq<LineKind>)
    ensures |ks| == |lines|
    ensures forall i :: 0 <= i < |lines| ==> ks[i] == Kind(lines[i], name)
  {
    seq(|lines|, i requires 0 <= i < |lines| => Kind(lines[i], name))
  }

  /** No opening line is followed, at any distance, by a closing line. */
  predicate NoSection(ks: seq<LineKind>) {
    forall i, j :: 0 <= i < j < |ks| && ks[i] == Opening ==> ks[j] != Closing
  }

  /** Lines `s` and `e` are what the scan settles on: `e` is the first
      closing line that follows some opening line, and `s` is the last
      opening line before it (a later opening line overrides an earlier one). */
  predicate Section(ks: seq<LineKind>, s: int, e: int) {
    && 0 <= s < e < |ks|
    && ks[s] == Opening && ks[e] == Closing
    && (forall j :: s < j < e ==> ks[j] != Opening)
    && (forall i, j :: 0 <= i < j < e && ks[i] == Opening ==> ks[j] != Closing)
  }

  /** The `for` loop over the lines from index `i` on; `start` is the
      opening line seen so far. */
  function Scan(ks: seq<LineKind>, i: nat, start: Option<nat>): (r: Option<(nat, nat)>)
    requires i <= |ks|
    requires start.None? ==> forall j :: 0 <= j < i ==> ks[j] != Opening
    requires start.Some? ==> start.value < i && ks[start.value] == Opening
    requires start.Some? ==> forall j :: start.value < j < i ==> ks[j] != Opening
    requires forall a, b :: 0 <= a < b < i && ks[a] == Opening ==> ks[b] != Closing
    ensures r.Some? ==> Section(ks, r.value.0, r.value.1)
    ensures r.None? ==> NoSection(ks)
    decreases |ks| - i
  {
    if i == |ks| then None
    else if ks[i] == Opening then Scan(ks, i + 1, Some(i))
    else if start.Some? && ks[i] == Closing then Some((start.value, i))
    else Scan(ks, i + 1, start)
  }

  /** Where the block is, if anywhere. */
  function Locate(lines: seq<string>, name: string): (r: Option<(nat, nat)>)
    ensures r.Some? ==> Section(Kinds(lines, name), r.value.0, r.value.1)
    ensures r.Some? ==> r.value.0 < r.value.1 < |lines|
    ensures r.None? ==> NoSection(Kinds(lines, name))
  {
    Scan(Kinds(lines, name), 0, None)
  }

  /** The scan can settle on one block only. */
  lemma SectionIsUnique(ks: seq<LineKind>, s: int, e: int, s2: int, e2: int)
    requires Section(ks, s, e) && Section(ks, s2, e2)
    ensures s == s2 && e == e2
  {
    assert ks[s] == Opening && ks[e] == Closing;
    assert ks[s2] == Opening && ks[e2] == Closing;
  }

  /** A block is found exactly when some opening line is followed by a closing line. */
  lemma SectionExistsIffFound(ks: seq<LineKind>)
    ensures (exists s, e :: Section(ks, s, e)) <==> !NoSection(ks)
  {
    var r := Scan(ks, 0, None);
    if r.Some? {
      var (s, e) := r.value;
      assert Section(ks, s, e);
    }
    if exists s, e :: Section(ks, s, e) {
      var s, e :| Section(ks, s, e);
      assert ks[s] == Opening && ks[e] == Closing;
    }
  }

  // ---------------------------------------------------------------------
  // Regenerating the block

  /** A Python value as `update_config_section` may meet it.  `POther`
      stands for any other value and carries `str()` of it. */
  datatype PyValue =
    | PStr(s: string)
    | PInt(i: int)
    | PBool(b: bool)
    | PNone
    | PList(items: seq<PyValue>)
    | POther(text: string)

  /** `repr` of a string: single quotes unless the text holds a single
      quote and no double quote; each character escaped as `EscapeChar`
      says. */
  function ReprString(s: string): (r: string)
    ensures |r| >= 2 && r[0] == r[|r| - 1] && (r[0] == '\'' || r[0] == '"')
  {
    var q := if '\'' in s && '"' !in s then '"' else '\'';
    [q] + EscapeChars(s, q) + [q]
  }

  /** The characters below U+0100 that Python does not print as they are:
      the C0 controls, DEL, the C1 controls, the no-break space and the
      soft hyphen. */
  predicate NonPrintableLatin1(c: char) {
    c < ' ' || ('\U{7f}' <= c <= '\U{a0}') || c == '\U{ad}'
  }

  function HexDigit(d: nat): (c: char)
    requires d < 16
  {
    if d < 10 then (('0' as int) + d) as char else (('a' as int) + d - 10) as char
  }

  /** The value of a lower-case hexadecimal digit. */
  function HexValue(c: char): Option<nat> {
    if '0' <= c <= '9' then Some((c as int) - ('0' as int))
    else if 'a' <= c <= 'f' then Some((c as int) - ('a' as int) + 10)
    else None
  }

  /** How `repr` writes one character inside quote `q`: the backslash and
      the quote behind a backslash, tab, line feed and carriage return by
      name, other non-printable Latin-1 characters as `\xhh`, the rest as
      they are. */
  function EscapeChar(c: char, q: char): string {
    if c == '\\' || c == q then ['\\', c]
    else if c == '\n' then "\\n"
    else if c == '\r' then "\\r"
    else if c == '\t' then "\\t"
    else if NonPrintableLatin1(c) then
      var n := c as int;
      ['\\', 'x', HexDigit(n / 16), HexDigit(n % 16)]
    else [c]
  }

  function EscapeChars(s: string, q: char): string {
    if |s| == 0 then "" else EscapeChar(s[0], q) + EscapeChars(s[1..], q)
  }

  /** Reads the body of a Python string literal written with the escapes
      above; `None` for a stray backslash. */
  function Unescape(r: string): (s: Option<string>)
    decreases |r|
  {
    if |r| == 0 then Some("")
    else if r[0] != '\\' then Prepend(r[0], Unescape(r[1..]))
    else if |r| < 2 then None
    else
      var e := r[1];
      if e == '\\' || e == '\'' || e == '"' then Prepend(e, Unescape(r[2..]))
      else if e == 'n' then Prepend('\n', Unescape(r[2..]))
      else if e == 'r' then Prepend('\r', Unescape(r[2..]))
      else if e == 't' then Prepend('\t', Unescape(r[2..]))
      else if e == 'x' && |r| >= 4 && HexValue(r[2]).Some? && HexValue(r[3]).Some? then
        Prepend((HexValue(r[2]).value * 16 + HexValue(r[3]).value) as char, Unescape(r[4..]))
      else None
  }

  function Prepend(c: char, s: Option<string>): Option<string> {
    if s.Some? then Some([c] + s.value) else None
  }

  lemma HexRoundTrip(d: nat)
    requires d < 16
    ensures HexValue(HexDigit(d)) == Some(d)
  {
  }

  /** Reading one escaped character back gives the character. */
  lemma UnescapeChar(c: char, q: char, rest: string)
    requires q == '\'' || q == '"'
    ensures Unescape(EscapeChar(c, q) + rest) == Prepend(c, Unescape(rest))
  {
    var t := EscapeChar(c, q) + rest;
    if NonPrintableLatin1(c) && c != '\n' && c != '\r' && c != '\t' {
      var n := c as int;
      HexRoundTrip(n / 16);
      HexRoundTrip(n % 16);
      assert t[4..] == rest;
      assert (n / 16 * 16 + n % 16) as char == c;
    } else if |EscapeChar(c, q)| == 2 {
      assert t[2..] == rest;
    } else {
      assert t[1..] == rest;
    }
  }

  lemma EscapeStep(c: char, q: char, rest: string, t: string)
    requires q == '\'' || q == '"'
    requires Unescape(t) == Some(rest)
    ensures Unescape(EscapeChar(c, q) + t) == Some([c] + rest)
  {
    UnescapeChar(c, q, t);
  }

  lemma EscapeCharsCons(c: char, rest: string, q: char)
    ensures EscapeChars([c] + rest, q) == EscapeChar(c, q) + EscapeChars(rest, q)
  {
    assert ([c] + rest)[1..] == rest;
  }

  /** `repr`'s escaping is undone by reading the literal back. */
  lemma {:induction false} EscapeRoundTrip(s: string, q: char)
    requires q == '\'' || q == '"'
    ensures Unescape(EscapeChars(s, q)) == Some(s)
    decreases |s|
  {
    if |s| > 0 {
      var c, rest := s[0], s[1..];
      assert s == [c] + rest;
      EscapeRoundTrip(rest, q);
      EscapeCharsCons(c, rest, q);
      EscapeStep(c, q, rest, EscapeChars(rest, q));
    }
  }

  /** The text between the quotes of `repr(s)` reads back as `s`, and the
      double quote is chosen exactly when the text has a single quote and
      no double quote. */
  lemma ReprRoundTrip(s: string)
    ensures var r := ReprString(s);
      Unescape(r[1..|r| - 1]) == Some(s) && (r[0] == '"' <==> '\'' in s && '"' !in s)
  {
    var q := if '\'' in s && '"' !in s then '"' else '\'';
    var r := ReprString(s);
    assert r[1..|r| - 1] == EscapeChars(s, q);
    EscapeRoundTrip(s, q);
  }

  /** `repr(s)` is a printable one-line literal: no line break and no
      non-printable Latin-1 character survives. */
  lemma {:induction false} EscapedPrintable(s: string, q: char)
    requires q == '\'' || q == '"'
    ensures forall k :: 0 <= k < |EscapeChars(s, q)| ==> !NonPrintableLatin1(EscapeChars(s, q)[k])
    decreases |s|
  {
    if |s| > 0 {
      EscapedPrintable(s[1..], q);
      var head, tail := EscapeChar(s[0], q), EscapeChars(s[1..], q);
      forall k | 0 <= k < |head + tail|
        ensures !NonPrintableLatin1((head + tail)[k])
      {
        if k >= |head| {
          assert (head + tail)[k] == tail[k - |head|];
        } else if NonPrintableLatin1(s[0]) && s[0] != '\n' && s[0] != '\r' && s[0] != '\t' {
          var n := s[0] as int;
          assert n / 16 < 16;
        }
      }
    }
  }

  lemma ReprPrintable(s: string)
    ensures var r := ReprString(s); forall k :: 0 <= k < |r| ==> !NonPrintableLatin1(r[k])
  {
    var q := if '\'' in s && '"' !in s then '"' else '\'';
    EscapedPrintable(s, q);
    var r := ReprString(s);
    forall k | 0 <= k < |r|
      ensures !NonPrintableLatin1(r[k])
    {
      if 0 < k < |r| - 1 {
        assert r[k] == EscapeChars(s, q)[k - 1];
      }
    }
  }

  /** `repr(v)`. */
  function Repr(v: PyValue): string {
    match v
    case PStr(s) => ReprString(s)
    case PInt(i) => IntToString(i)
    case PBool(b) => if b then "True" else "False"
    case PNone => "None"
    case PList(items) => "[" + Join(seq(|items|, k requires 0 <= k < |items| => Repr(items[k])), ", ") + "]"
    case POther(t) => t
  }

  /** `str(v)` for a value that is neither a string nor a list. */
  function Str(v: PyValue): string {
    match v
    case PStr(s) => s
    case PInt(i) => IntToString(i)
    case PBool(b) => if b then "True" else "False"
    case PNone => "None"
    case PList(_) => Repr(v)
    case POther(t) => t
  }

  /** One entry line, without its line break: strings in double quotes
      (not escaped), lists by `repr`, anything else by `str`. */
  function EntryLine(key: string, v: PyValue): string {
    "    \"" + key + "\": " + ValueText(v) + ","
  }

  function ValueText(v: PyValue): string {
    match v
    case PStr(s) => "\"" + s + "\""
    case PList(_) => Repr(v)
    case _ => Str(v)
  }

  function EntryLines(values: seq<(string, PyValue)>): (lines: seq<string>)
    ensures |lines| == |values|
    ensures forall k :: 0 <= k < |values| ==> lines[k] == EntryLine(values[k].0, values[k].1)
  {
    seq(|values|, k requires 0 <= k < |values| => EntryLine(values[k].0, values[k].1))
  }

  /** Lines, each followed by a line break. */
  function Terminated(lines: seq<string>): string {
    if |lines| == 0 then "" else lines[0] + "\n" + Terminated(lines[1..])
  }

  /** The regenerated block: the opening line, one entry per key in the
      dictionary's order, and the closing brace, each line ending in a
      line break. */
  function NewSectionText(name: string, values: seq<(string, PyValue)>): string {
    name + " = {\n" + Terminated(EntryLines(values)) + "}\n"
  }

  /** With line-break-free keys and values, the block is the opening line,
      the entry lines, `}`, and an empty line (from the final line break). */
  lemma NewSectionLines(name: string, values: seq<(string, PyValue)>)
    requires '\n' !in name && NoBreaks(EntryLines(values))
    ensures Split(NewSectionText(name, values), '\n') == BlockLines(name, values) + [""]
  {
    NewSectionJoin(name, values);
    BlockNoBreaks(name, values);
    NoBreaksAppend(BlockLines(name, values), [""]);
    SplitJoin(BlockLines(name, values) + [""], '\n');
  }

  /** A string value is written between double quotes as it is, so a line
      break in it splits its entry over two lines: the block then has five
      pieces for one key, where `NewSectionLines` gives four. */
  lemma BrokenValueSplits(name: string, key: string, a: string, b: string)
    requires '\n' !in name && '\n' !in key && '\n' !in a && '\n' !in b
    ensures var pieces := Split(NewSectionText(name, [(key, PStr(a + "\n" + b))]), '\n');
      && |pieces| == 5 == |BlockLines(name, [(key, PStr(a + "\n" + b))]) + [""]| + 1
      && pieces[1] == "    \"" + key + "\": \"" + a && pieces[2] == b + "\","
  {
    var header, l1, l2 := name + " = {", "    \"" + key + "\": \"" + a, b + "\",";
    BrokenValueJoin(name, key, a, b);
    assert '\n' !in l1 && '\n' !in l2 && '\n' !in header;
    SplitJoin([header, l1, l2, "}", ""], '\n');
    assert ['\n'] == "\n";
  }

  lemma BrokenValueJoin(name: string, key: string, a: string, b: string)
    ensures Join([name + " = {", "    \"" + key + "\": \"" + a, b + "\",", "}", ""], "\n")
      == NewSectionText(name, [(key, PStr(a + "\n" + b))])
  {
    var header, l1, l2 := name + " = {", "    \"" + key + "\": \"" + a, b + "\",";
    JoinFive(header, l1, l2);
    BrokenEntry(key, a, b);
    assert EntryLines([(key, PStr(a + "\n" + b))]) == [l1 + "\n" + l2];
    var line := l1 + "\n" + l2;
    assert [line][1..] == [];
    assert Terminated([line]) == line + "\n";
    SectionRegroup(name, l1, l2);
  }

  lemma SectionRegroup(name: string, l1: string, l2: string)
    ensures name + " = {\n" + (l1 + "\n" + l2 + "\n") + "}\n"
      == (name + " = {") + "\n" + (l1 + "\n" + (l2 + "\n" + "}\n"))
  {
    assert " = {\n" == " = {" + "\n";
  }

  lemma JoinFive(h: string, l1: string, l2: string)
    ensures Join([h, l1, l2, "}", ""], "\n") == h + "\n" + (l1 + "\n" + (l2 + "\n" + "}\n"))
  {
    JoinCons("}", [""], "\n");
    JoinCons(l2, ["}", ""], "\n");
    JoinCons(l1, [l2, "}", ""], "\n");
    JoinCons(h, [l1, l2, "}", ""], "\n");
    assert [h] + [l1, l2, "}", ""] == [h, l1, l2, "}", ""];
    assert [l1] + [l2, "}", ""] == [l1, l2, "}", ""];
    assert [l2] + ["}", ""] == [l2, "}", ""];
    assert "}" + "\n" + "" == "}\n";
  }

  lemma BrokenEntry(key: string, a: string, b: string)
    ensures EntryLine(key, PStr(a + "\n" + b)) == "    \"" + key + "\": \"" + a + "\n" + (b + "\",")
  {
    var v := a + "\n" + b;
    assert ValueText(PStr(v)) == "\"" + v + "\"";
    var l := "    \"" + key + "\": ";
    assert EntryLine(key, PStr(v)) == l + ("\"" + v + "\"") + ",";
    assert l + ("\"" + v + "\"") + "," == (l + "\"" + a) + "\n" + (b + "\"" + ",");
  }

  lemma NewSectionJoin(name: string, values: seq<(string, PyValue)>)
    ensures Join(BlockLines(name, values) + [""], "\n") == NewSectionText(name, values)
  {
    FixedSectionJoin(name, values);
    JoinThenEmpty(BlockLines(name, values), "\n");
    assert NewSectionText(name, values) == FixedSectionText(name, values) + "\n";
  }

  lemma {:induction false} JoinThenEmpty(ps: seq<string>, sep: string)
    requires |ps| >= 1
    ensures Join(ps + [""], sep) == Join(ps, sep) + sep
  {
    if |ps| > 1 {
      assert (ps + [""])[1..] == ps[1..] + [""];
      JoinThenEmpty(ps[1..], sep);
    } else {
      assert ps + [""] == [ps[0], ""];
      assert [ps[0], ""][1..] == [""];
    }
  }

  // ---------------------------------------------------------------------
  // Splicing

  /** `update_config_section`: unchanged without a block; otherwise the
      lines before the opening line and after the closing line are kept, in
      order, around the lines of the regenerated block. */
  function UpdateConfigSection(content: string, name: string, values: seq<(string, PyValue)>): (r: string)
    ensures Locate(Split(content, '\n'), name).None? ==> r == content
  {
    var lines := Split(content, '\n');
    var loc := Locate(lines, name);
    if loc.None? then content
    else Splice(lines, loc.value.0, loc.value.1, Split(NewSectionText(name, values), '\n'))
  }

  /** When the scan finds the section, the result's lines are the lines
      before it, the pieces of the regenerated text, and the lines after. */
  lemma RewriteReplacesSection(content: string, name: string, values: seq<(string, PyValue)>, s: nat, e: nat)
    requires var loc := Locate(Split(content, '\n'), name); loc.Some? && loc.value.0 == s && loc.value.1 == e
    ensures var lines := Split(content, '\n');
      Split(UpdateConfigSection(content, name, values), '\n') == lines[..s] + Split(NewSectionText(name, values), '\n') + lines[e + 1..]
  {
  }

  /** `lines[s:e+1] = block`, joined back with line breaks. */
  function Splice(lines: seq<string>, s: nat, e: nat, block: seq<string>): (r: string)
    requires s <= e < |lines| && |block| >= 1
    requires NoBreaks(lines) && NoBreaks(block)
    ensures Split(r, '\n') == lines[..s] + block + lines[e + 1..]
  {
    SplicedPiecesSplit(lines, s, e, block);
    Join(lines[..s] + block + lines[e + 1..], "\n")
  }

  /** None of the pieces holds a line break. */
  predicate NoBreaks(ps: seq<string>) {
    forall k :: 0 <= k < |ps| ==> '\n' !in ps[k]
  }

  lemma NoBreaksAppend(a: seq<string>, b: seq<string>)
    requires NoBreaks(a) && NoBreaks(b)
    ensures NoBreaks(a + b)
  {
    forall k | 0 <= k < |a + b|
      ensures '\n' !in (a + b)[k]
    {
      if k < |a| {
        assert (a + b)[k] == a[k];
      } else {
        assert (a + b)[k] == b[k - |a|];
      }
    }
  }

  lemma NoBreaksSlice(a: seq<string>, lo: nat, hi: nat)
    requires NoBreaks(a) && lo <= hi <= |a|
    ensures NoBreaks(a[lo..hi])
  {
    assert forall k :: 0 <= k < hi - lo ==> a[lo..hi][k] == a[lo + k];
  }

  lemma SplicedPiecesSplit(lines: seq<string>, s: nat, e: nat, block: seq<string>)
    requires s <= e < |lines| && |block| >= 1
    requires NoBreaks(lines) && NoBreaks(block)
    ensures Split(Join(lines[..s] + block + lines[e + 1..], "\n"), '\n') == lines[..s] + block + lines[e + 1..]
  {
    NoBreaksSplice(lines, s, e, block);
    SplitJoin(lines[..s] + block + lines[e + 1..], '\n');
  }

  lemma NoBreaksSplice(lines: seq<string>, s: nat, e: nat, block: seq<string>)
    requires s <= e < |lines|
    requires NoBreaks(lines) && NoBreaks(block)
    ensures NoBreaks(lines[..s] + block + lines[e + 1..])
  {
    NoBreaksSlice(lines, 0, s);
    NoBreaksSlice(lines, e + 1, |lines|);
    assert lines[e + 1..] == lines[e + 1..|lines|];
    assert lines[..s] == lines[0..s];
    NoBreaksAppend(lines[..s], block);
    NoBreaksAppend(lines[..s] + block, lines[e + 1..]);
  }

  // ---------------------------------------------------------------------
  // Rewriting twice

  /** The block text without the final line break: what the splice is
      evidently meant to insert, so that the lines after the block stay
      exactly as they were. */
  function FixedSectionText(name: string, values: seq<(string, PyValue)>): string {
    name + " = {\n" + Terminated(EntryLines(values)) + "}"
  }

  /** `update_config_section` with the block spliced in without the extra
      empty line. */
  function UpdateConfigSectionFixed(content: string, name: string, values: seq<(string, PyValue)>): (r: string)
    ensures Locate(Split(content, '\n'), name).None? ==> r == content
  {
    var lines := Split(content, '\n');
    var loc := Locate(lines, name);
    if loc.None? then content
    else Splice(lines, loc.value.0, loc.value.1, Split(FixedSectionText(name, values), '\n'))
  }

  /** When the scan finds the section, the result's lines are the lines
      before it, the pieces of the regenerated text, and the lines after. */
  lemma FixedRewriteReplacesSection(content: string, name: string, values: seq<(string, PyValue)>, s: nat, e: nat)
    requires var loc := Locate(Split(content, '\n'), name); loc.Some? && loc.value.0 == s && loc.value.1 == e
    ensures var lines := Split(content, '\n');
      Split(UpdateConfigSectionFixed(content, name, values), '\n') == lines[..s] + Split(FixedSectionText(name, values), '\n') + lines[e + 1..]
  {
  }

  /** A section name the regenerated block is recognisable by: it begins
      with neither whitespace nor a double quote, and has no line break. */
  predicate PlainName(name: string) {
    |name| > 0 && !IsSpace(name[0]) && name[0] != '"' && '\n' !in name
  }

  lemma {:induction false} TerminatedThen(lines: seq<string>, last: string)
    ensures Terminated(lines) + last == Join(lines + [last], "\n")
  {
    if |lines| > 0 {
      TerminatedThen(lines[1..], last);
      assert (lines + [last])[1..] == lines[1..] + [last];
      assert (lines + [last])[0] == lines[0];
    }
  }

  /** The lines of the corrected block: the opening line, the entries and
      the closing brace. */
  function BlockLines(name: string, values: seq<(string, PyValue)>): seq<string> {
    [name + " = {"] + EntryLines(values) + ["}"]
  }

  lemma JoinCons(p: string, rest: seq<string>, sep: string)
    requires |rest| >= 1
    ensures Join([p] + rest, sep) == p + sep + Join(rest, sep)
  {
    assert ([p] + rest)[1..] == rest;
  }

  lemma FixedSectionJoin(name: string, values: seq<(string, PyValue)>)
    ensures Join(BlockLines(name, values), "\n") == FixedSectionText(name, values)
  {
    var entries := EntryLines(values);
    var header := name + " = {";
    TerminatedThen(entries, "}");
    JoinCons(header, entries + ["}"], "\n");
    assert BlockLines(name, values) == [header] + (entries + ["}"]);
    assert name + " = {\n" == header + "\n";
    assert header + "\n" + Terminated(entries) + "}" == header + "\n" + (Terminated(entries) + "}");
  }

  lemma BlockNoBreaks(name: string, values: seq<(string, PyValue)>)
    requires '\n' !in name && NoBreaks(EntryLines(values))
    ensures NoBreaks(BlockLines(name, values))
  {
    var header := name + " = {";
    assert forall i :: 0 <= i < |header| ==> header[i] != '\n';
    assert NoBreaks([header]);
    assert NoBreaks(["}"]);
    NoBreaksAppend([header], EntryLines(values));
    NoBreaksAppend([header] + EntryLines(values), ["}"]);
  }

  lemma FixedSectionLines(name: string, values: seq<(string, PyValue)>)
    requires '\n' !in name && NoBreaks(EntryLines(values))
    ensures Split(FixedSectionText(name, values), '\n') == BlockLines(name, values)
  {
    FixedSectionJoin(name, values);
    BlockNoBreaks(name, values);
    SplitJoin(BlockLines(name, values), '\n');
  }

  /** Stripping a text whose ends are not whitespace changes nothing. */
  lemma StripKeeps(t: string)
    requires |t| > 0 && !IsSpace(t[0]) && !IsSpace(t[|t| - 1])
    ensures Strip(t) == t
  {
    SkipSpacesAt(t, 0, 0);
    SkipSpacesBackAt(t, 0, |t|, |t|);
    assert t[0..|t|] == t;
  }

  /** Stripping leading blanks off a text whose first other character is `c`
      leaves a text starting with `c`. */
  lemma StripAfterIndent(indent: string, rest: string)
    requires forall k :: 0 <= k < |indent| ==> IsSpace(indent[k])
    requires |rest| > 0 && !IsSpace(rest[0])
    ensures var r := Strip(indent + rest); |r| > 0 && r[0] == rest[0]
  {
    LStripIndent(indent, rest);
    var r := RStrip(rest);
    assert !IsSpace(rest[0]);
    assert |r| > 0;
  }

  lemma SkipOneSpace(t: string, i: nat)
    requires i + 1 < |t| && t[i] == ' ' && !IsSpace(t[i + 1])
    ensures SkipSpaces(t, i) == i + 1
  {
    assert IsSpace(t[i]);
    SkipSpacesAt(t, i, i + 1);
  }

  lemma HeaderOpens(name: string)
    requires PlainName(name)
    ensures Kind(name + " = {", name) == Opening
  {
    var t := name + " = {";
    assert t[0] == name[0] && t[|t| - 1] == '{';
    StripKeeps(t);
    HeaderMatches(name);
  }

  /** The generated header line matches the opening pattern. */
  lemma HeaderMatches(name: string)
    ensures StartMatch(name + " = {", name)
  {
    var t := name + " = {";
    assert StartsWith(t, name) by {
      assert t[..|name|] == name;
    }
    assert t[|name|] == ' ' && t[|name| + 1] == '=';
    SkipOneSpace(t, |name|);
    assert t[|name| + 2] == ' ' && t[|name| + 3] == '{';
    SkipOneSpace(t, |name| + 2);
  }

  /** A line that, stripped, begins with a double quote is neither an
      opening nor a closing line. */
  lemma QuotedIsOther(line: string, name: string)
    requires PlainName(name)
    requires var t := Strip(line); |t| > 0 && t[0] == '"'
    ensures Kind(line, name) == Other
  {
    var t := Strip(line);
    assert !StartsWith(t, name) by {
      if |name| <= |t| {
        assert t[..|name|][0] != name[0];
      }
    }
    assert !StartsWith(t, "}") by {
      assert t[..1][0] != '}';
    }
  }

  lemma EntryIsOther(key: string, v: PyValue, name: string)
    requires PlainName(name)
    ensures Kind(EntryLine(key, v), name) == Other
  {
    var rest := "\"" + key + "\": " + ValueText(v) + ",";
    assert EntryLine(key, v) == "    " + rest;
    assert rest[0] == '"';
    StripAfterIndent("    ", rest);
    QuotedIsOther("    " + rest, name);
  }

  lemma BraceCloses(name: string)
    ensures Kind("}", name) == Closing
  {
    StripKeeps("}");
  }

  lemma {:induction false} KindsAppend(a: seq<string>, b: seq<string>, name: string)
    ensures Kinds(a + b, name) == Kinds(a, name) + Kinds(b, name)
  {
    assert forall i :: 0 <= i < |a + b| ==> (a + b)[i] == if i < |a| then a[i] else b[i - |a|];
  }

  /** An opening line, `n` lines that are neither, and a closing line. */
  function ShapeOf(n: nat): (ks: seq<LineKind>)
    ensures |ks| == n + 2 && ks[0] == Opening && ks[n + 1] == Closing
    ensures forall j :: 0 < j < n + 1 ==> ks[j] == Other
  {
    [Opening] + seq(n, _ => Other) + [Closing]
  }

  /** The corrected block's lines are an opening line, entry lines that
      are neither opening nor closing, and the closing brace. */
  lemma BlockKinds(name: string, values: seq<(string, PyValue)>)
    requires PlainName(name)
    ensures Kinds(BlockLines(name, values), name) == ShapeOf(|values|)
  {
    var header, entries := [name + " = {"], EntryLines(values);
    KindsAppend(header + entries, ["}"], name);
    KindsAppend(header, entries, name);
    HeaderOpens(name);
    BraceCloses(name);
    EntryKinds(name, values);
    KindsOfShape(Kinds(header, name), Kinds(entries, name), Kinds(["}"], name), |values|);
  }

  /** The entry lines of the block are neither opening nor closing lines. */
  lemma EntryKinds(name: string, values: seq<(string, PyValue)>)
    requires PlainName(name)
    ensures forall k :: 0 <= k < |values| ==> Kinds(EntryLines(values), name)[k] == Other
  {
    forall k | 0 <= k < |values|
      ensures Kinds(EntryLines(values), name)[k] == Other
    {
      EntryIsOther(values[k].0, values[k].1, name);
    }
  }

  lemma KindsOfShape(a: seq<LineKind>, mid: seq<LineKind>, b: seq<LineKind>, n: nat)
    requires a == [Opening] && b == [Closing] && |mid| == n
    requires forall k :: 0 <= k < n ==> mid[k] == Other
    ensures a + mid + b == ShapeOf(n)
  {
  }

  /** An opening line, lines that are neither, and a closing line. */
  predicate BlockShape(mid: seq<LineKind>) {
    && |mid| >= 2 && mid[0] == Opening && mid[|mid| - 1] == Closing
    && forall j :: 0 < j < |mid| - 1 ==> mid[j] == Other
  }

  /** After a splice the scan settles on the spliced-in block. */
  lemma SpliceSection(ks: seq<LineKind>, s: int, e: int, mid: seq<LineKind>, rest: seq<LineKind>)
    requires Section(ks, s, e)
    requires BlockShape(mid)
    ensures Section(ks[..s] + mid + rest, s, s + |mid| - 1)
  {
    var ks2 := ks[..s] + mid + rest;
    assert forall j :: 0 <= j < s ==> ks2[j] == ks[j];
    assert forall j :: s <= j < s + |mid| ==> ks2[j] == mid[j - s];
  }

  /** The scan finds any block satisfying the declarative description. */
  lemma LocateFinds(lines: seq<string>, name: string, s: int, e: int)
    requires Section(Kinds(lines, name), s, e)
    ensures Locate(lines, name) == Some((s, e))
  {
    ScanFinds(Kinds(lines, name), s, e);
  }

  lemma ScanFinds(ks: seq<LineKind>, s: int, e: int)
    requires Section(ks, s, e)
    ensures var r := Scan(ks, 0, None); r.Some? && r.value.0 == s && r.value.1 == e
  {
    var r := Scan(ks, 0, None);
    SectionIsUnique(ks, s, e, r.value.0, r.value.1);
  }

  /** After a splice of a block of the right shape over the located block,
      the scan settles on the spliced-in block. */
  lemma ScanFindsSplice(big: seq<LineKind>, ks: seq<LineKind>, s: nat, e: nat, mid: seq<LineKind>, rest: seq<LineKind>, e2: int)
    requires s <= |ks| && big == ks[..s] + mid + rest && e2 == s + |mid| - 1
    requires Section(ks, s, e) && BlockShape(mid)
    ensures var r := Scan(big, 0, None); r.Some? && r.value.0 == s && r.value.1 == e2
  {
    SpliceSection(ks, s, e, mid, rest);
    ScanFinds(big, s, e2);
  }

  lemma KindsPrefix(lines: seq<string>, s: nat, name: string)
    requires s <= |lines|
    ensures Kinds(lines[..s], name) == Kinds(lines, name)[..s]
  {
  }

  /** The kinds of a spliced sequence of lines. */
  lemma SplicedKinds(lines: seq<string>, s: nat, block: seq<string>, tail: seq<string>, name: string)
    requires s <= |lines|
    ensures Kinds(lines[..s] + block + tail, name) == Kinds(lines, name)[..s] + Kinds(block, name) + Kinds(tail, name)
  {
    KindsAppend(lines[..s], block, name);
    KindsAppend(lines[..s] + block, tail, name);
    KindsPrefix(lines, s, name);
  }

  /** A block of the right shape spliced in over a located block is what
      the next scan finds. */
  lemma RelocateShaped(lines: seq<string>, name: string, s: nat, e: nat, block: seq<string>, tail: seq<string>, n: nat)
    requires Section(Kinds(lines, name), s, e)
    requires Kinds(block, name) == ShapeOf(n)
    ensures var loc := Locate(lines[..s] + block + tail, name);
      loc.Some? && loc.value.0 == s && loc.value.1 == s + |block| - 1
  {
    assert BlockShape(ShapeOf(n));
    var big := lines[..s] + block + tail;
    SplicedKinds(lines, s, block, tail, name);
    ScanFindsSplice(Kinds(big, name), Kinds(lines, name), s, e, Kinds(block, name), Kinds(tail, name), s + |block| - 1);
  }

  /** Where a rewrite put the block, a second rewrite finds it. */
  lemma RelocateBlock(lines: seq<string>, name: string, s: nat, e: nat, values: seq<(string, PyValue)>, tail: seq<string>)
    requires Section(Kinds(lines, name), s, e)
    requires PlainName(name)
    ensures var loc := Locate(lines[..s] + BlockLines(name, values) + tail, name);
      loc.Some? && loc.value.0 == s && loc.value.1 == s + |values| + 1
  {
    BlockKinds(name, values);
    RelocateShaped(lines, name, s, e, BlockLines(name, values), tail, |values|);
  }

  lemma Regroup<T>(a: seq<T>, b: seq<T>, x: T, c: seq<T>)
    ensures a + (b + [x]) + c == a + b + ([x] + c)
  {
  }

  /** Splicing a block over itself changes nothing. */
  lemma SpliceSame<T>(a: seq<T>, b: seq<T>, c: seq<T>)
    ensures var l := a + b + c; l[..|a|] + b + l[|a| + |b|..] == l
  {
    var l := a + b + c;
    assert l[..|a|] == a;
    assert l[|a| + |b|..] == c;
  }

  /** Where a splice put the block, the scan finds it: lines `s` to
      `s + |values| + 1` of the spliced lines. */
  lemma LocateAfterSplice(lines: seq<string>, name: string, s: nat, e: nat, values: seq<(string, PyValue)>, tail: seq<string>, spliced: seq<string>)
    requires Section(Kinds(lines, name), s, e) && PlainName(name)
    requires spliced == lines[..s] + BlockLines(name, values) + tail
    ensures var loc := Locate(spliced, name);
      loc.Some? && loc.value.0 == s && loc.value.1 == s + |values| + 1
  {
    RelocateBlock(lines, name, s, e, values, tail);
  }

  /** The lines of a first rewrite, as written: the block, then an empty
      line, then the lines after the old block. */
  lemma RewriteLines(content: string, name: string, values: seq<(string, PyValue)>, s: nat, e: nat)
    requires '\n' !in name && NoBreaks(EntryLines(values))
    requires var loc := Locate(Split(content, '\n'), name); loc.Some? && loc.value.0 == s && loc.value.1 == e
    ensures var lines := Split(content, '\n');
      Split(UpdateConfigSection(content, name, values), '\n')
        == lines[..s] + BlockLines(name, values) + ([""] + lines[e + 1..])
  {
    var lines := Split(content, '\n');
    RewriteReplacesSection(content, name, values, s, e);
    NewSectionLines(name, values);
    Regroup(lines[..s], BlockLines(name, values), "", lines[e + 1..]);
  }

  /** The lines of a first corrected rewrite: the block, then the lines
      after the old block. */
  lemma FixedRewriteLines(content: string, name: string, values: seq<(string, PyValue)>, s: nat, e: nat)
    requires '\n' !in name && NoBreaks(EntryLines(values))
    requires var loc := Locate(Split(content, '\n'), name); loc.Some? && loc.value.0 == s && loc.value.1 == e
    ensures var lines := Split(content, '\n');
      Split(UpdateConfigSectionFixed(content, name, values), '\n')
        == lines[..s] + BlockLines(name, values) + lines[e + 1..]
  {
    FixedRewriteReplacesSection(content, name, values, s, e);
    FixedSectionLines(name, values);
  }

  /** As written, rewriting a block a second time with the same values
      does not give the same text: each rewrite leaves one more empty line
      after the block. */
  lemma RewriteAddsALine(content: string, name: string, values: seq<(string, PyValue)>)
    requires PlainName(name) && NoBreaks(EntryLines(values))
    requires Locate(Split(content, '\n'), name).Some?
    ensures var once := UpdateConfigSection(content, name, values);
      |Split(UpdateConfigSection(once, name, values), '\n')| == |Split(once, '\n')| + 1
  {
    NewSectionLines(name, values);
    RewriteRelocated(content, name, values);
    RewriteLength(UpdateConfigSection(content, name, values), name, values);
  }

  /** After a first rewrite, the scan finds a block of `|values| + 2` lines. */
  lemma RewriteRelocated(content: string, name: string, values: seq<(string, PyValue)>)
    requires PlainName(name) && NoBreaks(EntryLines(values))
    requires Locate(Split(content, '\n'), name).Some?
    ensures var loc := Locate(Split(UpdateConfigSection(content, name, values), '\n'), name);
      loc.Some? && loc.value.1 == loc.value.0 + |values| + 1
  {
    var lines := Split(content, '\n');
    var s := Locate(lines, name).value.0;
    var e := Locate(lines, name).value.1;
    RewriteLines(content, name, values, s, e);
    LocateAfterSplice(lines, name, s, e, values, [""] + lines[e + 1..],
      Split(UpdateConfigSection(content, name, values), '\n'));
  }

  /** Rewriting a located block of `|values| + 2` lines with the
      `|values| + 3` pieces of the regenerated text adds one line. */
  lemma RewriteLength(once: string, name: string, values: seq<(string, PyValue)>)
    requires Split(NewSectionText(name, values), '\n') == BlockLines(name, values) + [""]
    requires var loc := Locate(Split(once, '\n'), name);
      loc.Some? && loc.value.1 == loc.value.0 + |values| + 1
    ensures |Split(UpdateConfigSection(once, name, values), '\n')| == |Split(once, '\n')| + 1
  {
    var loc := Locate(Split(once, '\n'), name).value;
    RewriteReplacesSection(once, name, values, loc.0, loc.1);
  }

  /** Corrected, a rewrite is idempotent: rewriting its result with the
      same values changes nothing. */
  lemma FixedRewriteIsIdempotent(content: string, name: string, values: seq<(string, PyValue)>)
    requires PlainName(name) && NoBreaks(EntryLines(values))
    ensures var once := UpdateConfigSectionFixed(content, name, values);
      UpdateConfigSectionFixed(once, name, values) == once
  {
    var lines := Split(content, '\n');
    if Locate(lines, name).Some? {
      var s := Locate(lines, name).value.0;
      var e := Locate(lines, name).value.1;
      var once := UpdateConfigSectionFixed(content, name, values);
      FixedRewriteLines(content, name, values, s, e);
      LocateAfterSplice(lines, name, s, e, values, lines[e + 1..], Split(once, '\n'));
      FixedRewriteSame(once, name, values, lines[..s], lines[e + 1..]);
    }
  }

  /** Rewriting the block a corrected rewrite left gives the same lines. */
  lemma FixedRewriteSame(once: string, name: string, values: seq<(string, PyValue)>, before: seq<string>, after: seq<string>)
    requires '\n' !in name && NoBreaks(EntryLines(values))
    requires Split(once, '\n') == before + BlockLines(name, values) + after
    requires var loc := Locate(Split(once, '\n'), name);
      loc.Some? && loc.value.0 == |before| && loc.value.1 == |before| + |values| + 1
    ensures UpdateConfigSectionFixed(once, name, values) == once
  {
    FixedRewriteReplacesSection(once, name, values, |before|, |before| + |values| + 1);
    FixedSectionLines(name, values);
    SpliceSame(before, BlockLines(name, values), after);
    SplitBack(UpdateConfigSectionFixed(once, name, values));
    SplitBack(once);
  }

  /** The smallest block shows it: each rewrite of `X = {` / `}` with no
      values leaves one more empty line, while the corrected rewrite
      leaves the text as it is. */
  lemma RewriteExample()
    ensures UpdateConfigSection("X = {\n}", "X", []) == "X = {\n}\n"
    ensures UpdateConfigSection("X = {\n}\n", "X", []) == "X = {\n}\n\n"
    ensures UpdateConfigSectionFixed("X = {\n}", "X", []) == "X = {\n}"
  {
    assert "X" + " = {" == "X = {";
    SmallJoins();
    EmptyBlockRewrite("X", []);
    EmptyBlockRewrite("X", [""]);
    EmptyBlockFixedRewrite("X", []);
  }

  /** The example texts as the lines `X = {`, `}` and what follows them. */
  lemma SmallJoins()
    ensures Join(["X = {", "}"] + [], "\n") == "X = {\n}"
    ensures Join(["X = {", "}", ""] + [], "\n") == "X = {\n}\n"
    ensures Join(["X = {", "}"] + [""], "\n") == "X = {\n}\n"
    ensures Join(["X = {", "}", ""] + [""], "\n") == "X = {\n}\n\n"
  {
    JoinCons("}", [""], "\n");
    JoinCons("}", ["", ""], "\n");
    JoinCons("", [""], "\n");
    JoinCons("X = {", ["}"], "\n");
    JoinCons("X = {", ["}", ""], "\n");
    JoinCons("X = {", ["}", "", ""], "\n");
    assert ["X = {", "}"] + [] == ["X = {"] + ["}"];
    assert ["X = {", "}", ""] + [] == ["X = {"] + ["}", ""];
    assert ["X = {", "}"] + [""] == ["X = {"] + ["}", ""];
    assert ["X = {", "}", ""] + [""] == ["X = {"] + ["}", "", ""];
    assert ["}"] + [""] == ["}", ""];
    assert ["}"] + ["", ""] == ["}", "", ""];
    assert [""] + [""] == ["", ""];
  }

  /** A block with no entries, `NAME = {` then `}`, followed by `rest`:
      the lines split back, and the scan finds the block at lines 0 and 1. */
  lemma EmptyBlockLocated(name: string, rest: seq<string>)
    requires PlainName(name) && NoBreaks(rest)
    ensures var lines := [name + " = {", "}"] + rest;
      && NoBreaks(lines) && Split(Join(lines, "\n"), '\n') == lines
      && Locate(lines, name) == Some((0, 1))
  {
    var lines := [name + " = {", "}"] + rest;
    assert EntryLines([]) == [];
    assert BlockLines(name, []) == [name + " = {", "}"];
    BlockNoBreaks(name, []);
    NoBreaksAppend(BlockLines(name, []), rest);
    LinesOf(lines);
    HeaderOpens(name);
    BraceCloses(name);
    OpenThenClose(Kinds(lines, name));
    LocateFinds(lines, name, 0, 1);
  }

  /** As written, rewriting that block with no values leaves an empty
      line after it. */
  lemma EmptyBlockRewrite(name: string, rest: seq<string>)
    requires PlainName(name) && NoBreaks(rest)
    ensures var h := name + " = {";
      UpdateConfigSection(Join([h, "}"] + rest, "\n"), name, []) == Join([h, "}", ""] + rest, "\n")
  {
    var h := name + " = {";
    var lines := [h, "}"] + rest;
    EmptyBlockLocated(name, rest);
    RewriteText(Join(lines, "\n"), name, [], 0, 1);
    EmptyBlockLines(name, rest);
  }

  /** Corrected, rewriting that block with no values gives it back. */
  lemma EmptyBlockFixedRewrite(name: string, rest: seq<string>)
    requires PlainName(name) && NoBreaks(rest)
    ensures var h := name + " = {";
      UpdateConfigSectionFixed(Join([h, "}"] + rest, "\n"), name, []) == Join([h, "}"] + rest, "\n")
  {
    var h := name + " = {";
    var lines := [h, "}"] + rest;
    EmptyBlockLocated(name, rest);
    FixedRewriteText(Join(lines, "\n"), name, [], 0, 1);
    EmptyBlockLines(name, rest);
  }

  /** The line sequences the two rewrites produce for an empty block. */
  lemma EmptyBlockLines(name: string, rest: seq<string>)
    ensures var h := name + " = {"; var lines := [h, "}"] + rest;
      && lines[..0] + BlockLines(name, []) + ([""] + lines[2..]) == [h, "}", ""] + rest
      && lines[..0] + BlockLines(name, []) + lines[2..] == lines
  {
    var h := name + " = {";
    var lines := [h, "}"] + rest;
    assert lines[..0] == [] && lines[2..] == rest;
    assert EntryLines([]) == [];
    assert BlockLines(name, []) == [h, "}"];
    assert [] + [h, "}"] + ([""] + rest) == ([h, "}"] + [""]) + rest;
  }

  /** The rewritten text, as the join of its lines. */
  lemma RewriteText(content: string, name: string, values: seq<(string, PyValue)>, s: nat, e: nat)
    requires '\n' !in name && NoBreaks(EntryLines(values))
    requires var loc := Locate(Split(content, '\n'), name); loc.Some? && loc.value.0 == s && loc.value.1 == e
    ensures var lines := Split(content, '\n');
      UpdateConfigSection(content, name, values)
        == Join(lines[..s] + BlockLines(name, values) + ([""] + lines[e + 1..]), "\n")
  {
    RewriteLines(content, name, values, s, e);
    SplitBack(UpdateConfigSection(content, name, values));
  }

  /** The corrected rewritten text, as the join of its lines. */
  lemma FixedRewriteText(content: string, name: string, values: seq<(string, PyValue)>, s: nat, e: nat)
    requires '\n' !in name && NoBreaks(EntryLines(values))
    requires var loc := Locate(Split(content, '\n'), name); loc.Some? && loc.value.0 == s && loc.value.1 == e
    ensures var lines := Split(content, '\n');
      UpdateConfigSectionFixed(content, name, values)
        == Join(lines[..s] + BlockLines(name, values) + lines[e + 1..], "\n")
  {
    FixedRewriteLines(content, name, values, s, e);
    SplitBack(UpdateConfigSectionFixed(content, name, values));
  }

  /** A text is the join of its lines. */
  lemma SplitBack(t: string)
    ensures Join(Split(t, '\n'), "\n") == t
  {
    assert ['\n'] == "\n";
  }

  /** Line-break-free lines joined with line breaks split back into them. */
  lemma LinesOf(lines: seq<string>)
    requires |lines| >= 1 && NoBreaks(lines)
    ensures Split(Join(lines, "\n"), '\n') == lines
  {
    SplitJoin(lines, '\n');
  }

  /** An opening line directly followed by a closing line is a block. */
  lemma OpenThenClose(ks: seq<LineKind>)
    requires |ks| >= 2 && ks[0] == Opening && ks[1] == Closing
    ensures Section(ks, 0, 1)
  {
  }
}
