/** Cookies in a request (sections 4.1.1 and 5.4 of RFC 6265): how they are added to
    the Cookie header and how they are read from it. Strings stand for Go's byte
    strings, one character per byte. */
module Cookies {

  datatype Cookie = Cookie(name: string, value: string, quoted: bool)

  type Header = map<string, seq<string>>

  // ---------- bytes ----------

  predicate TokenByte(b: char) {
    || 'a' <= b <= 'z'
    || 'A' <= b <= 'Z'
    || '0' <= b <= '9'
    || b in "!#$%&'*+-.^_`|~"
  }

  predicate ValidName(s: string) {
    s != "" && forall i :: 0 <= i < |s| ==> TokenByte(s[i])
  }

  predicate ValueByte(b: char) {
    ' ' <= b < 0x7f as char && b != ';' && b != '\\'
  }

  predicate ValidValue(s: string) {
    forall i :: 0 <= i < |s| ==> ValueByte(s[i])
  }

  predicate IsSpace(b: char) {
    b == ' ' || b == '\t' || b == '\n' || b == '\r'
  }

  function TrimLeft(s: string): string {
    if s != "" && IsSpace(s[0]) then TrimLeft(s[1..]) else s
  }

  function TrimRight(s: string): string {
    if s != "" && IsSpace(s[|s| - 1]) then TrimRight(s[..|s| - 1]) else s
  }

  function Trim(s: string): string {
    TrimRight(TrimLeft(s))
  }

  /** The first index of b, or -1. */
  function Index(s: string, b: char): (i: int)
    ensures -1 <= i < |s|
    ensures i >= 0 ==> s[i] == b && b !in s[..i]
    ensures i < 0 ==> b !in s
  {
    if s == "" then -1
    else if s[0] == b then 0
    else
      var i := Index(s[1..], b);
      if i < 0 then -1 else i + 1
  }

  // ---------- which bytes are which ----------

  /** Names are made of the bytes of a token (section 5.6.2 of RFC 9110). */
  lemma TokenBytes(b: char)
    ensures var n := b as int;
            TokenByte(b) <==>
            || 0x30 <= n <= 0x39 || 0x41 <= n <= 0x5a || 0x5e <= n <= 0x7a
            || n == 0x21 || 0x23 <= n <= 0x27 || n == 0x2a || n == 0x2b || n == 0x2d || n == 0x2e || n == 0x7c
              || n == 0x7e
  {
    var marks := "!#$%&'*+-.^_`|~";
    assert b in marks <==>
           || b == marks[0] || b == marks[1] || b == marks[2] || b == marks[3] || b == marks[4] || b == marks[5]
           || b == marks[6] || b == marks[7] || b == marks[8] || b == marks[9] || b == marks[10] || b == marks[11]
           || b == marks[12] || b == marks[13] || b == marks[14];
  }

  /** Values are printable ASCII but for the semicolon and the backslash. */
  lemma ValueBytes(b: char)
    ensures ValueByte(b) <==> 0x20 <= b as int <= 0x7e && b as int != 0x3b && b as int != 0x5c
  {
  }

  /** Space, tab, line feed and carriage return. */
  predicate Space(b: char) {
    b as int == 0x20 || b as int == 0x9 || b as int == 0xa || b as int == 0xd
  }

  predicate AllSpace(s: string) {
    forall i :: 0 <= i < |s| ==> Space(s[i])
  }

  lemma {:induction false} TrimLeftMeans(s: string) returns (n: nat)
    ensures n <= |s| && TrimLeft(s) == s[n..] && AllSpace(s[..n])
    ensures n < |s| ==> !Space(s[n])
  {
    if s != "" && IsSpace(s[0]) {
      var m := TrimLeftMeans(s[1..]);
      n := m + 1;
      assert s[1..][m..] == s[n..] && s[..n] == [s[0]] + s[1..][..m];
    } else {
      n := 0;
    }
  }

  lemma {:induction false} TrimRightMeans(s: string) returns (n: nat)
    ensures n <= |s| && TrimRight(s) == s[..n] && AllSpace(s[n..])
    ensures n > 0 ==> !Space(s[n - 1])
  {
    if s != "" && IsSpace(s[|s| - 1]) {
      n := TrimRightMeans(s[..|s| - 1]);
      assert s[..|s| - 1][..n] == s[..n] && s[n..] == s[..|s| - 1][n..] + [s[|s| - 1]];
    } else {
      n := |s|;
    }
  }

  /** Exactly the space at both ends goes. */
  lemma TrimMeans(s: string) returns (a: nat, b: nat)
    ensures a <= b <= |s| && Trim(s) == s[a..b] && AllSpace(s[..a]) && AllSpace(s[b..])
    ensures a < b ==> !Space(s[a]) && !Space(s[b - 1])
  {
    a := TrimLeftMeans(s);
    var n := TrimRightMeans(s[a..]);
    b := a + n;
    assert s[a..][..n] == s[a..b] && s[a..][n..] == s[b..];
  }

  // ---------- printing ----------

  function SanitizeName(s: string): string {
    if s == "" then "" else [if s[0] == '\n' || s[0] == '\r' then '-' else s[0]] + SanitizeName(s[1..])
  }

  /** Line breaks become dashes. */
  lemma {:induction false} SanitizeNameAt(s: string, i: nat)
    requires i < |s|
    ensures |SanitizeName(s)| == |s|
    ensures SanitizeName(s)[i] == if s[i] as int in {0xa, 0xd} then '-' else s[i]
  {
    if |s| > 1 {
      SanitizeNameAt(s[1..], if i > 0 then i - 1 else 0);
    }
  }

  function Filter(s: string): string {
    if s == "" then "" else (if ValueByte(s[0]) then [s[0]] else "") + Filter(s[1..])
  }

  function SanitizeValue(v: string, quoted: bool): string {
    var s := Filter(v);
    if s == "" then s
    else if ' ' in s || quoted then "\"" + s + "\""
    else s
  }

  function Print(c: Cookie): string {
    SanitizeName(c.name) + "=" + SanitizeValue(c.value, c.quoted)
  }

  /** Drops the invalid bytes, copying only when there are any. */
  method SanitizeOrWarn(v: string) returns (r: string)
    ensures r == Filter(v)
  {
    var ok := true;
    for i := 0 to |v|
      invariant ok && forall j :: 0 <= j < i ==> ValueByte(v[j])
    {
      if !ValueByte(v[i]) {
        ok := false;
        break;
      }
    }
    if ok {
      FilterValid(v);
      return v;
    }
    r := "";
    for i := 0 to |v|
      invariant r == Filter(v[..i])
    {
      FilterSnoc(v[..i], v[i]);
      assert v[..i + 1] == v[..i] + [v[i]];
      if ValueByte(v[i]) {
        r := r + [v[i]];
      }
    }
    assert v[..|v|] == v;
  }

  lemma {:induction false} FilterValid(v: string)
    ensures ValidValue(Filter(v)) && (Filter(v) == v <==> ValidValue(v)) && |Filter(v)| <= |v|
  {
    if v != "" {
      FilterValid(v[1..]);
      if ValueByte(v[0]) {
        assert v == [v[0]] + v[1..];
        assert Filter(v) == [v[0]] + Filter(v[1..]);
      } else {
        assert Filter(v) == Filter(v[1..]);
      }
      assert ValidValue(v) <==> ValueByte(v[0]) && ValidValue(v[1..]);
    }
  }

  lemma {:induction false} FilterSnoc(v: string, b: char)
    ensures Filter(v + [b]) == if ValueByte(b) then Filter(v) + [b] else Filter(v)
  {
    hide ValueByte;
    if v == [] {
      assert v + [b] == [b] && [b][1..] == [];
    } else {
      assert (v + [b])[1..] == v[1..] + [b];
      FilterSnoc(v[1..], b);
      assert Filter(v + [b]) == (if ValueByte(v[0]) then [v[0]] else []) + Filter(v[1..] + [b]);
    }
  }

  // ---------- the request ----------

  function Get(h: Header, key: string): string {
    if key in h && h[key] != [] then h[key][0] else ""
  }

  /** All cookies go into one line, separated by semicolons. */
  function Added(h: Header, c: Cookie): Header {
    var line := Get(h, "Cookie");
    h["Cookie" := [if line != "" then line + "; " + Print(c) else Print(c)]]
  }

  class Request {
    var header: Header

    constructor ()
      ensures header == map[]
    {
      header := map[];
    }

    method AddCookie(c: Cookie)
      modifies this
      ensures header == Added(old(header), c)
    {
      var value := SanitizeOrWarn(c.value);
      if value != "" && (' ' in value || c.quoted) {
        value := "\"" + value + "\"";
      }
      var s := SanitizeName(c.name) + "=" + value;
      var line := Get(header, "Cookie");
      if line != "" {
        header := header["Cookie" := [line + "; " + s]];
      } else {
        header := header["Cookie" := [s]];
      }
    }
  }

  // ---------- parsing ----------

  datatype Value = Bad | Good(value: string, quoted: bool)

  /** Strips one pair of quotes, and rejects bytes no value may hold. */
  function ParseValue(raw: string): Value {
    var quoted := |raw| > 1 && raw[0] == '"' && raw[|raw| - 1] == '"';
    var v := if quoted then raw[1..|raw| - 1] else raw;
    if ValidValue(v) then Good(v, quoted) else Bad
  }

  /** At most one cookie from the text between two semicolons. */
  function ParsePart(part: string, filter: string): seq<Cookie> {
    var p := Trim(part);
    var j := Index(p, '=');
    var name := if j >= 0 then p[..j] else p;
    var v := ParseValue(if j >= 0 then p[j + 1..] else "");
    if p == "" || !ValidName(name) || (filter != "" && filter != name) || v.Bad? then []
    else [Cookie(name, v.value, v.quoted)]
  }

  /** A semicolon that comes first does not separate: what follows it is one part. */
  function ParseLine(line: string, filter: string): seq<Cookie>
    decreases |line|
  {
    if line == "" then []
    else
      var i := Index(line, ';');
      if i > 0 then ParsePart(line[..i], filter) + ParseLine(line[i + 1..], filter)
      else ParsePart(line, filter)
  }

  function ParseLines(lines: seq<string>, filter: string): seq<Cookie> {
    if lines == [] then [] else ParseLine(Trim(lines[0]), filter) + ParseLines(lines[1..], filter)
  }

  function Cookies(h: Header, filter: string): seq<Cookie> {
    if "Cookie" in h then ParseLines(h["Cookie"], filter) else []
  }

  method ReadCookies(h: Header, filter: string) returns (cookies: seq<Cookie>)
    ensures cookies == Cookies(h, filter)
  {
    hide ParsePart, Trim, Index;
    cookies := [];
    var lines := if "Cookie" in h then h["Cookie"] else [];
    assert lines[0..] == lines;
    for k := 0 to |lines|
      invariant cookies + ParseLines(lines[k..], filter) == Cookies(h, filter)
    {
      ghost var before := cookies;
      ghost var later := ParseLines(lines[k + 1..], filter);
      assert lines[k..][1..] == lines[k + 1..];
      var found := ReadLine(Trim(lines[k]), filter);
      cookies := cookies + found;
      assert before + (ParseLine(Trim(lines[k]), filter) + later) == cookies + later;
    }
    assert cookies + [] == cookies;
  }

  /** The reader's loop over one line. */
  method ReadLine(trimmed: string, filter: string) returns (cookies: seq<Cookie>)
    ensures cookies == ParseLine(trimmed, filter)
  {
    hide ParsePart, Index;
    cookies := [];
    var line := trimmed;
    while line != ""
      invariant cookies + ParseLine(line, filter) == ParseLine(trimmed, filter)
      decreases |line|
    {
      var i := Index(line, ';');
      var part;
      ghost var whole := line;
      if i > 0 {
        part, line := line[..i], line[i + 1..];
      } else {
        part, line := line, "";
      }
      var found := ReadPart(part, filter);
      assert found + ParseLine(line, filter) == ParseLine(whole, filter);
      assert cookies + (found + ParseLine(line, filter)) == cookies + found + ParseLine(line, filter);
      cookies := cookies + found;
    }
  }

  /** One turn of that loop. */
  method ReadPart(part: string, filter: string) returns (found: seq<Cookie>)
    ensures found == ParsePart(part, filter)
  {
    var p := Trim(part);
    if p == "" {
      return [];
    }
    var name, val := p, "";
    var j := Index(p, '=');
    if j >= 0 {
      name, val := p[..j], p[j + 1..];
    }
    if !ValidName(name) || (filter != "" && filter != name) {
      return [];
    }
    var v := ParseValue(val);
    if v.Bad? {
      return [];
    }
    return [Cookie(name, v.value, v.quoted)];
  }

  // ---------- lines and filters ----------

  function Named(cs: seq<Cookie>, name: string): seq<Cookie> {
    if cs == [] then [] else (if cs[0].name == name then [cs[0]] else []) + Named(cs[1..], name)
  }

  lemma {:induction false} NamedMore(a: seq<Cookie>, b: seq<Cookie>, name: string)
    ensures Named(a + b, name) == Named(a, name) + Named(b, name)
  {
    if a == [] {
      assert a + b == b;
    } else {
      NamedMore(a[1..], b, name);
      assert (a + b)[1..] == a[1..] + b && (a + b)[0] == a[0];
      var first := if a[0].name == name then [a[0]] else [];
      var rest, more := Named(a[1..], name), Named(b, name);
      assert first + (rest + more) == first + rest + more;
    }
  }

  lemma PartFiltered(part: string, filter: string)
    requires filter != ""
    ensures ParsePart(part, filter) == Named(ParsePart(part, ""), filter)
  {
    hide Trim, Index, ParseValue, ValidName;
    var all := ParsePart(part, "");
    if all != [] {
      assert all == [all[0]] && all[1..] == [];
    }
  }

  lemma {:induction false} LineFiltered(line: string, filter: string)
    requires filter != ""
    ensures ParseLine(line, filter) == Named(ParseLine(line, ""), filter)
    decreases |line|
  {
    hide ParsePart, Index;
    if line != "" {
      var i := Index(line, ';');
      if i > 0 {
        PartFiltered(line[..i], filter);
        LineFiltered(line[i + 1..], filter);
        NamedMore(ParsePart(line[..i], ""), ParseLine(line[i + 1..], ""), filter);
      } else {
        PartFiltered(line, filter);
      }
    }
  }

  /** Reading with a name gives the cookies of that name, in their order. */
  lemma {:induction false} LinesFiltered(lines: seq<string>, filter: string)
    requires filter != ""
    ensures ParseLines(lines, filter) == Named(ParseLines(lines, ""), filter)
  {
    hide ParseLine, Trim;
    if lines != [] {
      LineFiltered(Trim(lines[0]), filter);
      LinesFiltered(lines[1..], filter);
      NamedMore(ParseLine(Trim(lines[0]), ""), ParseLines(lines[1..], ""), filter);
    }
  }

  /** Several Cookie lines are read one after the other. */
  lemma {:induction false} LinesMore(a: seq<string>, b: seq<string>, filter: string)
    ensures ParseLines(a + b, filter) == ParseLines(a, filter) + ParseLines(b, filter)
  {
    hide ParseLine, Trim;
    if a == [] {
      assert a + b == b;
    } else {
      LinesMore(a[1..], b, filter);
      assert (a + b)[1..] == a[1..] + b && (a + b)[0] == a[0];
      var first, rest, more := ParseLine(Trim(a[0]), filter), ParseLines(a[1..], filter), ParseLines(b, filter);
      assert first + (rest + more) == first + rest + more;
    }
  }

  // ---------- what is read is what was added ----------

  function AddAll(cs: seq<Cookie>): Header {
    if cs == [] then map[] else Added(AddAll(cs[..|cs| - 1]), cs[|cs| - 1])
  }

  /** The one line that a list of cookies becomes. */
  function Line(cs: seq<Cookie>): string {
    if cs == [] then ""
    else if |cs| == 1 then Print(cs[0])
    else Print(cs[0]) + "; " + Line(cs[1..])
  }

  /** Exactly the cookies that survive. A space forces quotes, and quotes around a
      bare value are taken for quoting. */
  predicate Faithful(c: Cookie) {
    && ValidName(c.name)
    && ValidValue(c.value)
    && (if c.quoted then c.value != "" else ' ' !in c.value && !Enclosed(c.value))
  }

  predicate Enclosed(s: string) {
    |s| > 1 && s[0] == '"' && s[|s| - 1] == '"'
  }

  /** What the reader makes of a printed cookie with a proper name. */
  function Reread(c: Cookie): Cookie {
    var v := ParseValue(SanitizeValue(c.value, c.quoted));
    if v.Good? then Cookie(c.name, v.value, v.quoted) else c
  }

  lemma ParseSanitized(v: string, quoted: bool)
    ensures ParseValue(SanitizeValue(v, quoted)).Good?
  {
    FilterValid(v);
    var s := Filter(v);
    if s != "" && (' ' in s || quoted) {
      var t := "\"" + s + "\"";
      assert t[1..|t| - 1] == s;
    } else if Enclosed(s) {
      var t := s[1..|s| - 1];
      forall i | 0 <= i < |t| ensures ValueByte(t[i]) {
        assert t[i] == s[i + 1];
      }
    }
  }

  lemma RereadSame(c: Cookie)
    requires ValidName(c.name)
    ensures Reread(c) == c <==> Faithful(c)
  {
    FilterValid(c.value);
    ParseSanitized(c.value, c.quoted);
    var s := Filter(c.value);
    if s != "" && (' ' in s || c.quoted) {
      var t := "\"" + s + "\"";
      assert t[1..|t| - 1] == s;
    }
  }

  lemma {:induction false} NameKept(s: string)
    requires forall i :: 0 <= i < |s| ==> TokenByte(s[i])
    ensures SanitizeName(s) == s
  {
    if s != "" {
      NameKept(s[1..]);
      assert s == [s[0]] + s[1..];
    }
  }

  lemma SanitizedClean(v: string, quoted: bool)
    ensures var s := SanitizeValue(v, quoted); ';' !in s && (s != "" ==> !IsSpace(s[|s| - 1]))
  {
    FilterValid(v);
  }

  lemma {:induction false} IndexAt(a: string, b: char, rest: string)
    requires b !in a
    ensures Index(a + [b] + rest, b) == |a|
  {
    if a != "" {
      assert (a + [b] + rest)[1..] == a[1..] + [b] + rest;
      IndexAt(a[1..], b, rest);
    }
  }

  lemma NameClean(s: string)
    requires ValidName(s)
    ensures '=' !in s && ';' !in s && !IsSpace(s[0])
  {
  }

  /** A printed cookie holds no semicolon and neither starts nor ends with a space. */
  lemma PrintClean(c: Cookie)
    requires ValidName(c.name)
    ensures ';' !in Print(c) && Print(c) != "" && !IsSpace(Print(c)[0]) && !IsSpace(Print(c)[|Print(c)| - 1])
    ensures Index(Print(c), '=') == |c.name| && Print(c)[..|c.name|] == c.name
    ensures Print(c)[|c.name| + 1..] == SanitizeValue(c.value, c.quoted)
  {
    NameKept(c.name);
    NameClean(c.name);
    SanitizedClean(c.value, c.quoted);
    hide ValidName, SanitizeValue, SanitizeName, Index;
    IndexAt(c.name, '=', SanitizeValue(c.value, c.quoted));
  }

  lemma TrimNothing(p: string)
    requires p != "" ==> !IsSpace(p[0]) && !IsSpace(p[|p| - 1])
    ensures Trim(p) == p && Trim(" " + p) == p
  {
    assert (" " + p)[1..] == p;
  }

  lemma ParsePrinted(c: Cookie, space: string)
    requires ValidName(c.name) && (space == "" || space == " ")
    ensures ParsePart(space + Print(c), "") == [Reread(c)]
  {
    hide Print, Trim, Index, ParseValue, SanitizeValue, ValidName, IsSpace;
    PrintClean(c);
    ParseSanitized(c.value, c.quoted);
    TrimNothing(Print(c));
    assert space == "" ==> space + Print(c) == Print(c);
    assert Trim(space + Print(c)) == Print(c);
  }

  ghost predicate ValidNames(cs: seq<Cookie>) {
    forall i :: 0 <= i < |cs| ==> ValidName(cs[i].name)
  }

  function RereadAll(cs: seq<Cookie>): (rs: seq<Cookie>)
    ensures |rs| == |cs| && forall i :: 0 <= i < |cs| ==> rs[i] == Reread(cs[i])
  {
    if cs == [] then [] else [Reread(cs[0])] + RereadAll(cs[1..])
  }

  /** Semicolons separate what was added, and nothing else is there. */
  lemma {:induction false} ParseWhole(cs: seq<Cookie>, space: string)
    requires ValidNames(cs) && cs != [] && (space == "" || space == " ")
    ensures ParseLine(space + Line(cs), "") == RereadAll(cs)
    decreases |cs|
  {
    hide Print, ParsePart, Reread, ValidName;
    var p := space + Print(cs[0]);
    PrintClean(cs[0]);
    ParsePrinted(cs[0], space);
    assert ';' !in p;
    if |cs| == 1 {
      assert cs[1..] == [];
    } else {
      var rest := " " + Line(cs[1..]);
      var line := space + Line(cs);
      assert line == p + [';'] + rest;
      IndexAt(p, ';', rest);
      assert line[..|p|] == p && line[|p| + 1..] == rest;
      ParseWhole(cs[1..], " ");
    }
  }

  lemma {:induction false} LineSnoc(cs: seq<Cookie>, c: Cookie)
    requires cs != []
    ensures Line(cs + [c]) == Line(cs) + "; " + Print(c)
  {
    hide Print;
    assert (cs + [c])[1..] == cs[1..] + [c];
    if |cs| == 1 {
      assert cs[1..] + [c] == [c];
    } else {
      LineSnoc(cs[1..], c);
    }
  }

  lemma PrintSome(c: Cookie)
    ensures Print(c) != ""
  {
  }

  lemma {:induction false} AddAllLine(cs: seq<Cookie>)
    ensures AddAll(cs) == if cs == [] then map[] else map["Cookie" := [Line(cs)]]
    ensures cs != [] ==> Line(cs) != ""
  {
    hide Print;
    if cs != [] {
      var most, c := cs[..|cs| - 1], cs[|cs| - 1];
      PrintSome(c);
      AddAllLine(most);
      if most != [] {
        LineSnoc(most, c);
        assert cs == most + [c];
      }
    }
  }

  lemma {:induction false} LineClean(cs: seq<Cookie>)
    requires ValidNames(cs) && cs != []
    ensures Line(cs) != "" && !IsSpace(Line(cs)[0]) && !IsSpace(Line(cs)[|Line(cs)| - 1])
  {
    hide Print, ValidName, IsSpace;
    PrintClean(cs[0]);
    if |cs| > 1 {
      LineClean(cs[1..]);
    }
  }

  lemma OneLine(line: string)
    ensures ParseLines([line], "") == ParseLine("" + Trim(line), "")
  {
    hide Trim, ParseLine;
    assert "" + Trim(line) == Trim(line);
    assert [line][1..] == [] && ParseLines([], "") == [];
  }

  lemma ReadAdded(cs: seq<Cookie>)
    requires ValidNames(cs)
    ensures Cookies(AddAll(cs), "") == RereadAll(cs)
  {
    hide ValidName, Trim, Line, ParseLine, RereadAll, AddAll;
    AddAllLine(cs);
    if cs != [] {
      LineClean(cs);
      TrimNothing(Line(cs));
      ParseWhole(cs, "");
      OneLine(Line(cs));
    }
  }

  lemma PartNames(part: string, filter: string)
    ensures ValidNames(ParsePart(part, filter))
  {
    hide ValidName, Trim, ParseValue;
  }

  /** The reader never returns a cookie without a proper name. */
  lemma {:induction false} LineNames(line: string, filter: string)
    ensures ValidNames(ParseLine(line, filter))
    decreases |line|
  {
    hide ParsePart, Index;
    if line != "" {
      var i := Index(line, ';');
      if i > 0 {
        PartNames(line[..i], filter);
        LineNames(line[i + 1..], filter);
      } else {
        PartNames(line, filter);
      }
    }
  }

  lemma {:induction false} LinesNames(lines: seq<string>, filter: string)
    ensures ValidNames(ParseLines(lines, filter))
  {
    hide ValidName, Trim;
    if lines != [] {
      LineNames(Trim(lines[0]), filter);
      LinesNames(lines[1..], filter);
    }
  }

  /** Adding any list of cookies to an empty request and reading them back yields
      the same list exactly when every one of them is faithful. */
  lemma CookieRoundTrip(cs: seq<Cookie>)
    ensures Cookies(AddAll(cs), "") == cs <==> forall i :: 0 <= i < |cs| ==> Faithful(cs[i])
  {
    hide ParseLines, Reread, AddAll;
    var h := AddAll(cs);
    if "Cookie" in h {
      LinesNames(h["Cookie"], "");
    }
    assert ValidNames(Cookies(h, ""));
    if ValidNames(cs) {
      ReadAdded(cs);
      forall i | 0 <= i < |cs| ensures Reread(cs[i]) == cs[i] <==> Faithful(cs[i]) {
        RereadSame(cs[i]);
      }
      hide Faithful;
      assert (forall i :: 0 <= i < |cs| ==> Reread(cs[i]) == cs[i]) ==> RereadAll(cs) == cs;
    }
  }

  lemma SpaceQuoted()
    ensures SanitizeValue("b c", false) == "\"b c\""
  {
    assert "c"[1..] == "" && " c"[1..] == "c" && "b c"[1..] == " c";
    assert Filter("b c") == "b c" && "b c"[1] == ' ';
  }

  /** A space makes the writer add quotes, and the reader takes them for the cookie's own. */
  lemma SpaceGainsQuotes()
    ensures Cookies(AddAll([Cookie("a", "b c", false)]), "") == [Cookie("a", "b c", true)]
  {
    hide SanitizeValue, Filter, AddAll, Cookies, ParseLines;
    SpaceQuoted();
    assert "\"b c\""[1..4] == "b c";
    assert RereadAll([Cookie("a", "b c", false)]) == [Cookie("a", "b c", true)];
    ReadAdded([Cookie("a", "b c", false)]);
  }
}
