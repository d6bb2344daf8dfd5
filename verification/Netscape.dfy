/**
 The Netscape cookie file: printing, and reading back what was printed.
 */
module Netscape {
  import opened Cookies
  import opened Upload

  const FIRST_LINE := "# Netscape HTTP Cookie File"
  const SECOND_LINE := "# Generated by media-cookie-broker; do not edit."
  const HTTP_ONLY := "#HttpOnly_"

  // ------------------------------------------------------------------ decimal numbers

  function Digit(d: int): char
    requires 0 <= d < 10
  {
    ('0' as int + d) as char
  }

  function Decimal(n: nat): (s: string)
    ensures s != []
    ensures forall i | 0 <= i < |s| :: '0' <= s[i] <= '9'
  {
    if n < 10 then [Digit(n)] else Decimal(n / 10) + [Digit(n % 10)]
  }

  /** %d */
  function Signed(n: int): string {
    if n < 0 then "-" + Decimal(-n) else Decimal(n)
  }

  function ParseDecimal(s: string): int {
    if s == [] then 0 else 10 * ParseDecimal(s[..|s|-1]) + (s[|s|-1] as int - '0' as int)
  }

  lemma {:induction false} DecimalRoundTrip(n: nat)
    ensures ParseDecimal(Decimal(n)) == n
  {
    if n < 10 {
      assert ParseDecimal([]) == 0;
      assert [Digit(n)][..0] == [];
    } else {
      DecimalRoundTrip(n / 10);
      var s := Decimal(n);
      assert s[..|s|-1] == Decimal(n / 10);
    }
  }

  // ------------------------------------------------------------------ printing

  function Flag(b: bool): string {
    if b then "TRUE" else "FALSE"
  }

  /** The seven columns of a row. */
  function Columns(c: Cookie): (cols: seq<string>)
    ensures |cols| == 7
  {
    [(if c.httpOnly then HTTP_ONLY else "") + c.domain, Flag(c.domain != [] && c.domain[0] == '.'),
     c.path, Flag(c.secure), Signed(c.expiration), c.name, c.value]
  }

  function Join(parts: seq<string>, sep: char): string
    requires parts != []
  {
    if |parts| == 1 then parts[0] else parts[0] + [sep] + Join(parts[1..], sep)
  }

  function Row(c: Cookie): string {
    Join(Columns(c), '\t') + "\n"
  }

  function Rows(cookies: seq<Cookie>): string {
    if cookies == [] then "" else Row(cookies[0]) + Rows(cookies[1..])
  }

  function Header(): string {
    FIRST_LINE + "\n" + SECOND_LINE + "\n"
  }

  function Render(cookies: seq<Cookie>): string {
    Header() + Rows(cookies)
  }

  lemma Associative(a: string, b: string, c: string)
    ensures a + (b + c) == (a + b) + c
  {
  }

  lemma {:induction false} RowsAppend(cookies: seq<Cookie>, c: Cookie)
    ensures Rows(cookies + [c]) == Rows(cookies) + Row(c)
  {
    if cookies == [] {
      assert Rows([c]) == Row(c) + Rows([]);
    } else {
      RowsAppend(cookies[1..], c);
      assert (cookies + [c])[0] == cookies[0] && (cookies + [c])[1..] == cookies[1..] + [c];
      Associative(Row(cookies[0]), Rows(cookies[1..]), Row(c));
    }
  }

  lemma RenderAppend(cookies: seq<Cookie>, c: Cookie)
    ensures Render(cookies + [c]) == Render(cookies) + Row(c)
  {
    RowsAppend(cookies, c);
    Associative(Header(), Rows(cookies), Row(c));
  }

  method RenderNetscape(cookies: seq<Cookie>) returns (text: string)
    ensures text == Render(cookies)
  {
    text := Header();
    for i := 0 to |cookies|
      invariant text == Render(cookies[..i])
    {
      var row := PrintRow(cookies[i]);
      RenderAppend(cookies[..i], cookies[i]);
      assert cookies[..i + 1] == cookies[..i] + [cookies[i]];
      text := text + row;
    }
    assert cookies[..|cookies|] == cookies;
  }

  method PrintRow(c: Cookie) returns (row: string)
    ensures row == Row(c)
  {
    var domain := c.domain;
    if c.httpOnly {
      domain := HTTP_ONLY + domain;
    }
    var includeSubdomains := "FALSE";
    if c.domain != [] && c.domain[0] == '.' {
      includeSubdomains := "TRUE";
    }
    var secure := "FALSE";
    if c.secure {
      secure := "TRUE";
    }
    ghost var k := Columns(c);
    RowIsLine(c);
    assert domain == k[0] && includeSubdomains == k[1] && secure == k[3];
    row := domain + "\t" + includeSubdomains + "\t" + c.path + "\t" + secure + "\t"
           + Signed(c.expiration) + "\t" + c.name + "\t" + c.value + "\n";
  }

  lemma {:induction false} JoinAppend(parts: seq<string>, sep: char, last: string)
    requires parts != []
    ensures Join(parts + [last], sep) == Join(parts, sep) + [sep] + last
  {
    assert (parts + [last])[1..] == parts[1..] + [last];
    if |parts| == 1 {
      assert Join([last], sep) == last;
    } else {
      JoinAppend(parts[1..], sep, last);
    }
  }

  lemma JoinPrefix(k: seq<string>, n: int)
    requires 0 < n < |k|
    ensures Join(k[..n + 1], '\t') == Join(k[..n], '\t') + "\t" + k[n]
  {
    JoinAppend(k[..n], '\t', k[n]);
    assert k[..n + 1] == k[..n] + [k[n]];
  }

  lemma RowIsLine(c: Cookie)
    ensures var k := Columns(c);
            Row(c) == k[0] + "\t" + k[1] + "\t" + k[2] + "\t" + k[3] + "\t" + k[4] + "\t" + k[5] + "\t" + k[6] + "\n"
  {
    var k := Columns(c);
    assert Join(k[..1], '\t') == k[0];
    JoinPrefix(k, 1);
    JoinPrefix(k, 2);
    JoinPrefix(k, 3);
    JoinPrefix(k, 4);
    JoinPrefix(k, 5);
    JoinPrefix(k, 6);
    assert k[..7] == k;
  }

  // ------------------------------------------------------------------ reading

  function Split(s: string, sep: char): (parts: seq<string>)
    ensures parts != []
  {
    if s == [] then [[]]
    else
      var rest := Split(s[1..], sep);
      if s[0] == sep then [[]] + rest else [[s[0]] + rest[0]] + rest[1..]
  }

  predicate Without(s: string, sep: char) {
    forall i | 0 <= i < |s| :: s[i] != sep
  }

  lemma {:induction false} SplitWhole(s: string, sep: char)
    requires Without(s, sep)
    ensures Split(s, sep) == [s]
  {
    if s != [] {
      SplitWhole(s[1..], sep);
      assert [s[0]] + s[1..] == s;
    }
  }

  lemma {:induction false} SplitFirst(s: string, sep: char, rest: string)
    requires Without(s, sep)
    ensures Split(s + [sep] + rest, sep) == [s] + Split(rest, sep)
  {
    var all := s + [sep] + rest;
    if s == [] {
      assert all[1..] == rest;
    } else {
      SplitFirst(s[1..], sep, rest);
      assert all[1..] == s[1..] + [sep] + rest;
      assert [s[0]] + s[1..] == s;
    }
  }

  lemma {:induction false} SplitJoin(parts: seq<string>, sep: char)
    requires parts != [] && forall i | 0 <= i < |parts| :: Without(parts[i], sep)
    ensures Split(Join(parts, sep), sep) == parts
  {
    if |parts| == 1 {
      SplitWhole(parts[0], sep);
    } else {
      SplitFirst(parts[0], sep, Join(parts[1..], sep));
      SplitJoin(parts[1..], sep);
    }
  }

  lemma HeaderLines()
    ensures Without(FIRST_LINE, '\n') && Without(SECOND_LINE, '\n')
  {
    assert SECOND_LINE == "# Generated by media-cookie" + "-broker; do not edit.";
    assert Without("# Generated by media-cookie", '\n') && Without("-broker; do not edit.", '\n');
  }

  predicate StartsWith(s: string, prefix: string) {
    |prefix| <= |s| && s[..|prefix|] == prefix
  }

  predicate IsFlag(s: string) {
    s == "TRUE" || s == "FALSE"
  }

  /** Decimal digits without needless zeros. */
  predicate IsNumber(s: string) {
    s != [] && (forall i | 0 <= i < |s| :: '0' <= s[i] <= '9') && (|s| > 1 ==> s[0] != '0')
  }

  /** Reads a row back, strictly: the second column says whether the domain begins with a dot, flags are TRUE or FALSE
      and nothing else, and the expiry is a plain number.  SameSite is not in the file. */
  function ParseRow(line: string): Option<Cookie> {
    var k := Split(line, '\t');
    if |k| != 7 || !IsFlag(k[1]) || !IsFlag(k[3]) || !IsNumber(k[4]) then None else
      var httpOnly := StartsWith(k[0], HTTP_ONLY);
      var domain := if httpOnly then k[0][|HTTP_ONLY|..] else k[0];
      if (k[1] == "TRUE") != StartsWith(domain, ".") then None else
        Some(Cookie(domain, k[2], k[5], k[6], ParseDecimal(k[4]), k[3] == "TRUE", httpOnly, ""))
  }

  function ParseRows(lines: seq<string>): Option<seq<Cookie>> {
    if lines == [] then Some([]) else
      match (ParseRow(lines[0]), ParseRows(lines[1..]))
      case (Some(c), Some(cs)) => Some([c] + cs)
      case _ => None
  }

  /** Two header lines, then one row per line, each line ended. */
  function ParseFile(text: string): Option<seq<Cookie>> {
    var lines := Split(text, '\n');
    if |lines| >= 3 && lines[0] == FIRST_LINE && lines[1] == SECOND_LINE && lines[|lines|-1] == ""
    then ParseRows(lines[2..|lines|-1]) else None
  }

  // ------------------------------------------------------------------ what validation guarantees

  /** A cookie whose row can be read back. */
  predicate Printable(c: Cookie) {
    && !Unsafe(c.domain) && !Unsafe(c.path) && !Unsafe(c.name) && !Unsafe(c.value)
    && c.expiration >= 0
    && forall i | 0 <= i < |c.domain| :: !('A' <= c.domain[i] <= 'Z')
  }

  predicate AllPrintable(cookies: seq<Cookie>) {
    forall i | 0 <= i < |cookies| :: Printable(cookies[i])
  }

  lemma {:induction false} LowerAt(fold: char -> char, s: string)
    ensures |Lower(fold, s)| == |s| && forall i | 0 <= i < |s| :: Lower(fold, s)[i] == fold(s[i])
  {
    if s != [] { LowerAt(fold, s[1..]); }
  }

  lemma {:induction false} TrimLeftSafe(s: string)
    requires !Unsafe(s)
    ensures !Unsafe(TrimLeft(s))
    decreases |s|
  {
    if s != [] && IsSpace(s[0]) {
      assert forall i | 0 <= i < |s[1..]| :: s[1..][i] == s[i + 1];
      TrimLeftSafe(s[1..]);
    }
  }

  lemma {:induction false} TrimRightSafe(s: string)
    requires !Unsafe(s)
    ensures !Unsafe(TrimRight(s))
    decreases |s|
  {
    if s != [] && IsSpace(s[|s|-1]) {
      TrimRightSafe(s[..|s|-1]);
    }
  }

  lemma AcceptableIsPrintable(fold: char -> char, c: Cookie, roots: seq<string>)
    requires Lowering(fold) && Acceptable(fold, c, roots)
    ensures Printable(Normalise(fold, c))
  {
    TrimLeftSafe(c.domain);
    TrimRightSafe(TrimLeft(c.domain));
    TrimLeftSafe(c.path);
    TrimRightSafe(TrimLeft(c.path));
    LowerAt(fold, Trim(c.domain));
  }

  lemma AcceptedIsPrintable(fold: char -> char, roots: Option<seq<string>>, d: Draft, now: int)
    requires Lowering(fold) && Validate(fold, roots, d, now).Accepted?
    ensures AllPrintable(Validate(fold, roots, d, now).cookies)
  {
    var cookies := Validate(fold, roots, d, now).cookies;
    AcceptedIsCanonical(fold, roots, d, now);
    var normal := Map(Normaliser(fold), d.cookies);
    forall i | 0 <= i < |cookies| ensures Printable(cookies[i]) {
      assert cookies[i] in multiset(cookies);
      assert cookies[i] in normal;
      var j :| 0 <= j < |normal| && normal[j] == cookies[i];
      assert d.cookies[j] in d.cookies;
      AcceptableIsPrintable(fold, d.cookies[j], roots.value);
    }
  }

  // ------------------------------------------------------------------ round trip

  function WithoutSameSite(c: Cookie): Cookie {
    c.(sameSite := "")
  }

  lemma SafeIsWithout(s: string)
    requires !Unsafe(s)
    ensures Without(s, '\t') && Without(s, '\n')
  {
  }

  lemma ColumnsAreSafe(c: Cookie)
    requires Printable(c)
    ensures forall i | 0 <= i < 7 :: !Unsafe(Columns(c)[i])
  {
    assert !Unsafe(HTTP_ONLY) && !Unsafe("TRUE") && !Unsafe("FALSE");
  }

  lemma {:induction false} DecimalIsNumber(n: nat)
    ensures IsNumber(Decimal(n)) && (n > 0 ==> Decimal(n)[0] != '0')
  {
    if n >= 10 { DecimalIsNumber(n / 10); }
  }

  /** The prefix is unambiguous, because no printable domain has its capital H. */
  lemma DomainColumn(c: Cookie)
    requires Printable(c)
    ensures var k := Columns(c)[0];
            StartsWith(k, HTTP_ONLY) == c.httpOnly && (if c.httpOnly then k[|HTTP_ONLY|..] else k) == c.domain
  {
    var k := Columns(c)[0];
    if c.httpOnly {
      assert k[..|HTTP_ONLY|] == HTTP_ONLY && k[|HTTP_ONLY|..] == c.domain;
    } else {
      assert k == c.domain;
      assert HTTP_ONLY[1] == 'H';
      if |HTTP_ONLY| <= |c.domain| { assert c.domain[..|HTTP_ONLY|][1] == c.domain[1]; }
    }
  }

  lemma RowRoundTrip(c: Cookie)
    requires Printable(c)
    ensures ParseRow(Join(Columns(c), '\t')) == Some(WithoutSameSite(c))
  {
    var k := Columns(c);
    ColumnsAreSafe(c);
    forall i | 0 <= i < 7 ensures Without(k[i], '\t') { SafeIsWithout(k[i]); }
    SplitJoin(k, '\t');
    ColumnsParse(c);
  }

  lemma ColumnsParse(c: Cookie)
    requires Printable(c)
    ensures var k := Columns(c);
            && IsFlag(k[1]) && IsFlag(k[3]) && IsNumber(k[4]) && ParseDecimal(k[4]) == c.expiration
            && (k[1] == "TRUE" <==> StartsWith(c.domain, ".")) && (k[3] == "TRUE" <==> c.secure)
            && StartsWith(k[0], HTTP_ONLY) == c.httpOnly
            && (if c.httpOnly then k[0][|HTTP_ONLY|..] else k[0]) == c.domain
            && k[2] == c.path && k[5] == c.name && k[6] == c.value
  {
    DecimalRoundTrip(c.expiration);
    DecimalIsNumber(c.expiration);
    DomainColumn(c);
    assert c.domain != [] ==> c.domain[..1] == [c.domain[0]];
  }

  lemma {:induction false} JoinSafe(parts: seq<string>, sep: char, other: char)
    requires parts != [] && sep != other && forall i | 0 <= i < |parts| :: Without(parts[i], other)
    ensures Without(Join(parts, sep), other)
  {
    if |parts| > 1 { JoinSafe(parts[1..], sep, other); }
  }

  lemma RowIsOneLine(c: Cookie, rest: string)
    requires Printable(c)
    ensures Split(Row(c) + rest, '\n') == [Join(Columns(c), '\t')] + Split(rest, '\n')
  {
    var line := Join(Columns(c), '\t');
    ColumnsAreSafe(c);
    forall i | 0 <= i < 7 ensures Without(Columns(c)[i], '\n') { SafeIsWithout(Columns(c)[i]); }
    JoinSafe(Columns(c), '\t', '\n');
    SplitFirst(line, '\n', rest);
  }

  lemma {:induction false} RowsRoundTrip(cookies: seq<Cookie>)
    requires AllPrintable(cookies)
    ensures var lines := Split(Rows(cookies), '\n');
            && |lines| == |cookies| + 1 && lines[|cookies|] == ""
            && ParseRows(lines[..|cookies|]) == Some(Map(WithoutSameSite, cookies))
  {
    if cookies != [] {
      var c, rest := cookies[0], cookies[1..];
      RowIsOneLine(c, Rows(rest));
      RowsRoundTrip(rest);
      RowRoundTrip(c);
      var tail := Split(Rows(rest), '\n');
      var lines := [Join(Columns(c), '\t')] + tail;
      assert lines[..|cookies|] == [lines[0]] + tail[..|rest|];
      assert lines[..|cookies|][1..] == tail[..|rest|];
    }
  }

  /** After its two header lines, a file is read row by row up to its last, empty line. */
  lemma HeadedFile(text: string, rows: seq<string>)
    requires Split(text, '\n') == [FIRST_LINE, SECOND_LINE] + rows && rows != [] && rows[|rows|-1] == ""
    ensures ParseFile(text) == ParseRows(rows[..|rows|-1])
  {
    var lines := Split(text, '\n');
    assert lines[0] == FIRST_LINE && lines[1] == SECOND_LINE && lines[|lines|-1] == rows[|rows|-1];
    assert lines[2..|lines|-1] == rows[..|rows|-1];
  }

  /** Reading back a printed file gives every cookie but its SameSite. */
  lemma FileRoundTrip(cookies: seq<Cookie>)
    requires AllPrintable(cookies)
    ensures ParseFile(Render(cookies)) == Some(Map(WithoutSameSite, cookies))
  {
    HeaderLines();
    TwoLines(FIRST_LINE, SECOND_LINE, Rows(cookies));
    RowsRoundTrip(cookies);
    HeadedFile(Render(cookies), Split(Rows(cookies), '\n'));
  }

  lemma TwoLines(a: string, b: string, body: string)
    requires Without(a, '\n') && Without(b, '\n')
    ensures Split(a + "\n" + b + "\n" + body, '\n') == [a, b] + Split(body, '\n')
  {
    assert a + "\n" + b + "\n" + body == a + ['\n'] + (b + ['\n'] + body);
    SplitFirst(a, '\n', b + ['\n'] + body);
    SplitFirst(b, '\n', body);
  }

  /** The file of an accepted upload determines the accepted cookies up to SameSite. */
  lemma AcceptedRoundTrip(fold: char -> char, roots: Option<seq<string>>, d: Draft, now: int)
    requires Lowering(fold) && Validate(fold, roots, d, now).Accepted?
    ensures var cookies := Validate(fold, roots, d, now).cookies;
            ParseFile(Render(cookies)) == Some(Map(WithoutSameSite, cookies))
  {
    AcceptedIsPrintable(fold, roots, d, now);
    FileRoundTrip(Validate(fold, roots, d, now).cookies);
  }
}
