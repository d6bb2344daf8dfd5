/**
 A file rendered from an ASCII upload of at most 1 MiB fits the 2 MiB limit of cookie-sync.

 The text of an upload is described by its JSON members; what matters is how many bytes each one
 takes and what it decodes to.  Raw characters are ASCII; any other character is escaped.
 */
module UploadSize {
  import opened Cookies
  import opened Upload
  import opened Netscape

  const MAX_UPLOAD := 0x10_0000
  const MAX_COOKIE_FILE := 0x20_0000

  // ------------------------------------------------------------------ bytes

  function Utf8(c: char): (n: nat)
    ensures 1 <= n <= 4
  {
    var p := c as int;
    if p < 0x80 then 1 else if p < 0x800 then 2 else if p < 0x1_0000 then 3 else 4
  }

  function Bytes(s: string): nat {
    if s == [] then 0 else Utf8(s[0]) + Bytes(s[1..])
  }

  lemma {:induction false} BytesConcat(a: string, b: string)
    ensures Bytes(a + b) == Bytes(a) + Bytes(b)
  {
    if a == [] {
      assert a + b == b;
    } else {
      BytesConcat(a[1..], b);
      assert (a + b)[1..] == a[1..] + b;
    }
  }

  lemma {:induction false} AsciiBytes(s: string)
    requires forall i | 0 <= i < |s| :: s[i] as int < 0x80
    ensures Bytes(s) == |s|
  {
    if s != [] { AsciiBytes(s[1..]); }
  }

  /** What lower-casing may turn a text into takes no more than this: one byte for a character of ASCII, and four
      for any other, which upload text of ASCII has to escape with at least six. */
  function Weight(s: string): nat {
    if s == [] then 0 else (if s[0] as int < 0x80 then 1 else 4) + Weight(s[1..])
  }

  lemma {:induction false} BytesUnderWeight(s: string)
    ensures Bytes(s) <= Weight(s)
  {
    if s != [] { BytesUnderWeight(s[1..]); }
  }

  lemma {:induction false} WeightConcat(a: string, b: string)
    ensures Weight(a + b) == Weight(a) + Weight(b)
  {
    if a == [] {
      assert a + b == b;
    } else {
      WeightConcat(a[1..], b);
      assert (a + b)[1..] == a[1..] + b;
    }
  }

  lemma {:induction false} TrimLeftShrinks(s: string)
    ensures Weight(TrimLeft(s)) <= Weight(s)
    decreases |s|
  {
    if s != [] && IsSpace(s[0]) { TrimLeftShrinks(s[1..]); }
  }

  lemma {:induction false} TrimRightShrinks(s: string)
    ensures Weight(TrimRight(s)) <= Weight(s)
    decreases |s|
  {
    if s != [] && IsSpace(s[|s|-1]) {
      WeightConcat(s[..|s|-1], s[|s|-1..]);
      assert s == s[..|s|-1] + s[|s|-1..];
      TrimRightShrinks(s[..|s|-1]);
    }
  }

  /** A letter may take more bytes in lower case, but not more than its weight. */
  lemma {:induction false} LowerShrinks(fold: char -> char, s: string)
    requires Lowering(fold)
    ensures Weight(Lower(fold, s)) <= Weight(s)
  {
    if s != [] {
      LowerShrinks(fold, s[1..]);
      assert Lower(fold, s)[1..] == Lower(fold, s[1..]);
    }
  }

  lemma NormaliseShrinks(fold: char -> char, c: Cookie)
    requires Lowering(fold)
    ensures Weight(Normalise(fold, c).domain) <= Weight(c.domain) && Weight(Normalise(fold, c).path) <= Weight(c.path)
  {
    TrimLeftShrinks(c.domain);
    TrimRightShrinks(TrimLeft(c.domain));
    LowerShrinks(fold, Trim(c.domain));
    TrimLeftShrinks(c.path);
    TrimRightShrinks(TrimLeft(c.path));
  }

  // ------------------------------------------------------------------ JSON text

  /** A character of a JSON string: written raw, as a two-character escape, or as \uXXXX (a
      surrogate pair beyond the basic plane). */
  datatype Piece = Raw(c: char) | Short(c: char) | Escaped(c: char)

  predicate WellWritten(p: Piece) {
    match p
    case Raw(c) => 0x20 <= c as int < 0x80
    case Short(c) => c as int < 0x80
    case Escaped(c) => true
  }

  function PieceSize(p: Piece): nat {
    match p
    case Raw(_) => 1
    case Short(_) => 2
    case Escaped(c) => if c as int < 0x1_0000 then 6 else 12
  }

  function Text(pieces: seq<Piece>): string {
    if pieces == [] then "" else [pieces[0].c] + Text(pieces[1..])
  }

  function TextSize(pieces: seq<Piece>): nat {
    if pieces == [] then 0 else PieceSize(pieces[0]) + TextSize(pieces[1..])
  }

  lemma {:induction false} TextFits(pieces: seq<Piece>)
    requires forall i | 0 <= i < |pieces| :: WellWritten(pieces[i])
    ensures Weight(Text(pieces)) <= TextSize(pieces)
  {
    if pieces != [] {
      TextFits(pieces[1..]);
      assert Text(pieces)[1..] == Text(pieces[1..]);
    }
  }

  datatype TextField = Domain | Path | Name | Value | SameSite

  /** The length of the key: domain, path, name, value or same_site. */
  function KeySize(f: TextField): nat {
    match f
    case Domain => 6
    case Path => 4
    case Name => 4
    case Value => 5
    case SameSite => 9
  }

  /** A member of a cookie object, with the white space written around its parts.  A null leaves
      its field alone; a repeated field takes its last value. */
  datatype Member =
    | TextMember(field: TextField, pieces: seq<Piece>, space: nat)
    | Expiration(seconds: nat, space: nat)
    | Secure(secure: bool, space: nat)
    | HttpOnly(httpOnly: bool, space: nat)
    | Null(keySize: nat, space: nat)

  predicate WellFormed(m: Member) {
    m.TextMember? ==> forall i | 0 <= i < |m.pieces| :: WellWritten(m.pieces[i])
  }

  /** "key":value */
  function MemberSize(m: Member): nat {
    3 + m.space + match m
    case TextMember(f, pieces, _) => KeySize(f) + 2 + TextSize(pieces)
    case Expiration(n, _) => 10 + |Decimal(n)|
    case Secure(b, _) => 6 + if b then 4 else 5
    case HttpOnly(b, _) => 9 + if b then 4 else 5
    case Null(keySize, _) => keySize + 4
  }

  /** Every member is preceded by a comma or the opening brace; the closing brace ends the object. */
  function ObjectSize(members: seq<Member>): nat {
    1 + MembersSize(members)
  }

  function MembersSize(members: seq<Member>): nat {
    if members == [] then 0 else MembersSize(members[..|members|-1]) + 1 + MemberSize(members[|members|-1])
  }

  function Store(c: Cookie, m: Member): Cookie {
    match m
    case TextMember(Domain, pieces, _) => c.(domain := Text(pieces))
    case TextMember(Path, pieces, _) => c.(path := Text(pieces))
    case TextMember(Name, pieces, _) => c.(name := Text(pieces))
    case TextMember(Value, pieces, _) => c.(value := Text(pieces))
    case TextMember(SameSite, pieces, _) => c.(sameSite := Text(pieces))
    case Expiration(n, _) => c.(expiration := n)
    case Secure(b, _) => c.(secure := b)
    case HttpOnly(b, _) => c.(httpOnly := b)
    case Null(_, _) => c
  }

  function Decode(members: seq<Member>): (c: Cookie)
    ensures c.expiration >= 0
  {
    if members == [] then Cookie("", "", "", "", 0, false, false, "")
    else Store(Decode(members[..|members|-1]), members[|members|-1])
  }

  // ------------------------------------------------------------------ a row is no longer than its object

  /** What the fields of a cookie may take in a row. */
  function Payload(c: Cookie): nat
    requires c.expiration >= 0
  {
    Weight(c.domain) + Weight(c.path) + Weight(c.name) + Weight(c.value) + |Decimal(c.expiration)|
    + if c.httpOnly then 10 else 0
  }

  /** The bytes of "domain":"", "path":"" and "name":"" that a complete cookie cannot do without. */
  function Required(c: Cookie): nat {
    (if |c.domain| > 0 then 12 else 0) + (if |c.path| > 0 then 10 else 0) + (if |c.name| > 0 then 10 else 0)
  }

  lemma MemberCoversChange(c: Cookie, m: Member)
    requires c.expiration >= 0 && WellFormed(m)
    ensures Payload(Store(c, m)) + Required(Store(c, m)) <= Payload(c) + Required(c) + 1 + MemberSize(m)
  {
    match m
    case TextMember(f, pieces, _) =>
      TextFits(pieces);
      var text := Text(pieces);
      match f {
        case Domain => assert Payload(c.(domain := text)) == Payload(c) - Weight(c.domain) + Weight(text);
        case Path => assert Payload(c.(path := text)) == Payload(c) - Weight(c.path) + Weight(text);
        case Name => assert Payload(c.(name := text)) == Payload(c) - Weight(c.name) + Weight(text);
        case Value => assert Payload(c.(value := text)) == Payload(c) - Weight(c.value) + Weight(text);
        case SameSite => assert Payload(c.(sameSite := text)) == Payload(c);
      }
    case Expiration(n, _) =>
      assert Payload(c.(expiration := n)) == Payload(c) - |Decimal(c.expiration)| + |Decimal(n)|;
    case HttpOnly(b, _) =>
      assert Payload(c.(httpOnly := b)) <= Payload(c) + 10;
    case _ =>
  }

  lemma {:induction false} MembersCoverPayload(members: seq<Member>)
    requires forall i | 0 <= i < |members| :: WellFormed(members[i])
    ensures Payload(Decode(members)) + Required(Decode(members)) <= 1 + MembersSize(members)
  {
    if members != [] {
      MembersCoverPayload(members[..|members|-1]);
      MemberCoversChange(Decode(members[..|members|-1]), members[|members|-1]);
    }
  }

  lemma FlagBytes(b: bool)
    ensures Bytes(Flag(b)) <= 5
  {
    AsciiBytes(Flag(b));
  }

  lemma RowBytes(c: Cookie)
    requires c.expiration >= 0
    ensures Bytes(Row(c)) <= Payload(c) + 17
  {
    var k := Columns(c);
    BytesUnderWeight(c.domain);
    BytesUnderWeight(c.path);
    BytesUnderWeight(c.name);
    BytesUnderWeight(c.value);
    RowIsLine(c);
    LineBytes(k[0], k[1], k[2], k[3], k[4], k[5], k[6]);
    BytesConcat(if c.httpOnly then HTTP_ONLY else "", c.domain);
    AsciiBytes(HTTP_ONLY);
    FlagBytes(c.secure);
    FlagBytes(c.domain != [] && c.domain[0] == '.');
    AsciiBytes(Decimal(c.expiration));
  }

  lemma LineBytes(a: string, b: string, c: string, d: string, e: string, f: string, g: string)
    ensures Bytes(a + "\t" + b + "\t" + c + "\t" + d + "\t" + e + "\t" + f + "\t" + g + "\n")
         == Bytes(a) + Bytes(b) + Bytes(c) + Bytes(d) + Bytes(e) + Bytes(f) + Bytes(g) + 7
  {
    TabbedBytes(a, b);
    TabbedBytes(a + "\t" + b, c);
    TabbedBytes(a + "\t" + b + "\t" + c, d);
    TabbedBytes(a + "\t" + b + "\t" + c + "\t" + d, e);
    TabbedBytes(a + "\t" + b + "\t" + c + "\t" + d + "\t" + e, f);
    TabbedBytes(a + "\t" + b + "\t" + c + "\t" + d + "\t" + e + "\t" + f, g);
    BytesConcat(a + "\t" + b + "\t" + c + "\t" + d + "\t" + e + "\t" + f + "\t" + g, "\n");
    AsciiBytes("\n");
  }

  lemma TabbedBytes(a: string, b: string)
    ensures Bytes(a + "\t" + b) == Bytes(a) + 1 + Bytes(b)
  {
    BytesConcat(a + "\t", b);
    BytesConcat(a, "\t");
    AsciiBytes("\t");
  }

  /** The row of an acceptable cookie takes no more bytes than the object it was uploaded as. */
  lemma RowFitsObject(fold: char -> char, members: seq<Member>, roots: seq<string>)
    requires forall i | 0 <= i < |members| :: WellFormed(members[i])
    requires Lowering(fold) && Acceptable(fold, Decode(members), roots)
    ensures Bytes(Row(Normalise(fold, Decode(members)))) <= ObjectSize(members)
  {
    var c := Decode(members);
    MembersCoverPayload(members);
    NormaliseShrinks(fold, c);
    RowBytes(Normalise(fold, c));
  }

  // ------------------------------------------------------------------ the whole file

  function ArraySize(objects: seq<seq<Member>>): nat {
    if objects == [] then 0 else ObjectSize(objects[0]) + ArraySize(objects[1..])
  }

  lemma {:induction false} InsertBytes(c: Cookie, s: seq<Cookie>)
    ensures Bytes(Rows(Insert(c, s))) == Bytes(Row(c)) + Bytes(Rows(s))
  {
    if s == [] || !Before(s[0], c) {
      assert ([c] + s)[1..] == s;
      BytesConcat(Row(c), Rows(s));
    } else {
      InsertBytes(c, s[1..]);
      var rest := Insert(c, s[1..]);
      assert ([s[0]] + rest)[1..] == rest;
      BytesConcat(Row(s[0]), Rows(rest));
      BytesConcat(Row(s[0]), Rows(s[1..]));
    }
  }

  lemma {:induction false} SortBytes(s: seq<Cookie>)
    ensures Bytes(Rows(Sort(s))) == Bytes(Rows(s))
  {
    if s != [] {
      SortBytes(s[1..]);
      InsertBytes(s[0], Sort(s[1..]));
      BytesConcat(Row(s[0]), Rows(s[1..]));
    }
  }

  predicate AllWellFormed(objects: seq<seq<Member>>) {
    forall i, j | 0 <= i < |objects| && 0 <= j < |objects[i]| :: WellFormed(objects[i][j])
  }

  lemma {:induction false} RowsFitArray(fold: char -> char, objects: seq<seq<Member>>, roots: seq<string>)
    requires AllWellFormed(objects)
    requires Lowering(fold) && forall i | 0 <= i < |objects| :: Acceptable(fold, Decode(objects[i]), roots)
    ensures var cookies := Map(Normaliser(fold), Map(Decode, objects));
            Bytes(Rows(cookies)) <= ArraySize(objects)
  {
    var cookies := Map(Normaliser(fold), Map(Decode, objects));
    if objects != [] {
      RowFitsObject(fold, objects[0], roots);
      RowsFitArray(fold, objects[1..], roots);
      assert cookies[1..] == Map(Normaliser(fold), Map(Decode, objects[1..]));
      BytesConcat(Row(cookies[0]), Rows(cookies[1..]));
    }
  }

  lemma {:induction false} BytesBound(s: string)
    ensures Bytes(s) <= 4 * |s|
  {
    if s != [] { BytesBound(s[1..]); }
  }

  /** Whatever ASCII text within the upload limit was accepted, its file is never refused for size. */
  lemma AcceptedFileFits(fold: char -> char, roots: Option<seq<string>>, d: Draft, objects: seq<seq<Member>>, now: int)
    requires AllWellFormed(objects) && d.cookies == Map(Decode, objects) && ArraySize(objects) <= MAX_UPLOAD
    requires Lowering(fold) && Validate(fold, roots, d, now).Accepted?
    ensures var cookies := Validate(fold, roots, d, now).cookies;
            Bytes(Render(cookies)) <= MAX_UPLOAD + 4 * |Header()| < MAX_COOKIE_FILE
  {
    forall i | 0 <= i < |objects| ensures Acceptable(fold, Decode(objects[i]), roots.value) {
      assert d.cookies[i] in d.cookies;
    }
    RowsFitArray(fold, objects, roots.value);
    SortBytes(Map(Normaliser(fold), d.cookies));
    BytesBound(Header());
    assert |Header()| == 77;
    BytesConcat(Header(), Rows(Sort(Map(Normaliser(fold), d.cookies))));
  }
}
