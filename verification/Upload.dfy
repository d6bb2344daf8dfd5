/**
 Validation and canonicalisation of an uploaded cookie list.
 */
module Upload {
  import opened Cookies

  // ------------------------------------------------------------------ text

  /** Unicode white space, as strings.TrimSpace removes it. */
  predicate IsSpace(c: char) {
    var n := c as int;
    0x09 <= n <= 0x0D || n in {0x20, 0x85, 0xA0, 0x1680, 0x2028, 0x2029, 0x202F, 0x205F, 0x3000}
    || 0x2000 <= n <= 0x200A
  }

  function TrimLeft(s: string): string {
    if s != [] && IsSpace(s[0]) then TrimLeft(s[1..]) else s
  }

  function TrimRight(s: string): string {
    if s != [] && IsSpace(s[|s|-1]) then TrimRight(s[..|s|-1]) else s
  }

  function Trim(s: string): string {
    TrimRight(TrimLeft(s))
  }

  /** What lower-casing may do to a character: the letters A to Z become a to z, the rest of ASCII stays, and
      nothing else becomes a capital letter of ASCII or a control character. */
  ghost predicate Lowering(fold: char -> char) {
    forall c: char ::
      if 'A' <= c <= 'Z' then fold(c) == (c as int + 32) as char
      else if c as int < 0x80 then fold(c) == c
      else !('A' <= fold(c) <= 'Z') && fold(c) as int >= 0x20
  }

  function Lower(fold: char -> char, s: string): string {
    if s == [] then [] else [fold(s[0])] + Lower(fold, s[1..])
  }

  /** The characters that separate rows and columns of a Netscape file. */
  predicate Unsafe(s: string) {
    exists i | 0 <= i < |s| :: s[i] == '\r' || s[i] == '\n' || s[i] == '\t'
  }

  predicate HasSuffix(s: string, suffix: string) {
    |suffix| <= |s| && s[|s| - |suffix|..] == suffix
  }

  /** Byte order of UTF-8 text is the order of its code points. */
  predicate Less(a: string, b: string) {
    b != [] && (a == [] || a[0] < b[0] || (a[0] == b[0] && Less(a[1..], b[1..])))
  }

  // ------------------------------------------------------------------ one cookie

  function Normalise(fold: char -> char, c: Cookie): Cookie {
    c.(domain := Lower(fold, Trim(c.domain)), path := Trim(c.path))
  }

  function Normaliser(fold: char -> char): Cookie -> Cookie {
    c => Normalise(fold, c)
  }

  predicate AllowedDomain(domain: string, roots: seq<string>) {
    var bare := if domain != [] && domain[0] == '.' then domain[1..] else domain;
    exists root | root in roots :: bare == root || HasSuffix(bare, "." + root)
  }

  predicate Acceptable(fold: char -> char, c: Cookie, roots: seq<string>) {
    && !Unsafe(c.domain) && !Unsafe(c.path) && !Unsafe(c.name) && !Unsafe(c.value)
    && var n := Normalise(fold, c);
    && n.path != [] && n.path[0] == '/'
    && AllowedDomain(n.domain, roots)
    && n.name != ""
    && n.expiration >= 0
    && n.sameSite in ["", "unspecified", "no_restriction", "lax", "strict"]
  }

  /** The text under which a cookie is remembered while duplicates are looked for. */
  function Key(c: Cookie): string {
    c.domain + "\0" + c.path + "\0" + c.name
  }

  function Triple(c: Cookie): (string, string, string) {
    (c.domain, c.path, c.name)
  }

  predicate Before(a: Cookie, b: Cookie) {
    if a.domain != b.domain then Less(a.domain, b.domain)
    else if a.path != b.path then Less(a.path, b.path)
    else Less(a.name, b.name)
  }

  // ------------------------------------------------------------------ the cookie list

  function Map<A, B>(f: A -> B, s: seq<A>): (r: seq<B>)
    ensures |r| == |s| && forall i | 0 <= i < |s| :: r[i] == f(s[i])
  {
    if s == [] then [] else [f(s[0])] + Map(f, s[1..])
  }

  function Insert(c: Cookie, s: seq<Cookie>): seq<Cookie> {
    if s == [] || !Before(s[0], c) then [c] + s else [s[0]] + Insert(c, s[1..])
  }

  /** A sorting procedure; SortIsCanonical shows that the choice does not matter. */
  function Sort(s: seq<Cookie>): seq<Cookie> {
    if s == [] then [] else Insert(s[0], Sort(s[1..]))
  }

  ghost predicate StrictlySorted(s: seq<Cookie>) {
    forall i, j | 0 <= i < j < |s| :: Before(s[i], s[j])
  }

  datatype Draft = Draft(schemaVersion: int, reason: string, capturedAt: Option<int>, cookies: seq<Cookie>)

  datatype Verdict = Rejected | Accepted(reason: string, cookies: seq<Cookie>, digest: Digest)

  const MAX_COOKIES := 5000
  const CLOCK_SKEW := 300

  /** The checks made before any cookie is looked at; roots is None for an unknown provider. */
  predicate Admissible(roots: Option<seq<string>>, d: Draft, now: int) {
    && roots.Some?
    && d.schemaVersion == 1
    && d.reason in ["", "ordinary", "recovery"]
    && d.capturedAt.Some? && d.capturedAt.value <= now + CLOCK_SKEW
    && 0 < |d.cookies| <= MAX_COOKIES
  }

  ghost predicate AllAcceptable(fold: char -> char, cookies: seq<Cookie>, roots: seq<string>) {
    forall c | c in cookies :: Acceptable(fold, c, roots)
  }

  ghost function Validate(fold: char -> char, roots: Option<seq<string>>, d: Draft, now: int): Verdict {
    if !Admissible(roots, d, now) || !AllAcceptable(fold, d.cookies, roots.value) then Rejected else
      var normal := Map(Normaliser(fold), d.cookies);
      if !Distinct(Map(Key, normal)) then Rejected else
        Accepted(if d.reason == "" then "ordinary" else d.reason, Sort(normal), OfCookies(Sort(normal)))
  }

  /** An upload whose cookies are normalised in place, remembered, and sorted. */
  class Upload {
    var schemaVersion: int
    var reason: string
    var capturedAt: Option<int>
    var cookies: seq<Cookie>

    function View(): Draft
      reads this
    {
      Draft(schemaVersion, reason, capturedAt, cookies)
    }

    method ValidateUpload(fold: char -> char, roots: Option<seq<string>>, now: int) returns (digest: Option<Digest>)
      modifies this`reason, this`cookies
      ensures match Validate(fold, roots, old(View()), now)
              case Rejected => digest == None
              case Accepted(r, cs, d) => digest == Some(d) && reason == r && cookies == cs
    {
      if roots == None || schemaVersion != 1 {
        return None;
      }
      if reason == "" {
        reason := "ordinary";
      }
      if reason != "ordinary" && reason != "recovery" {
        return None;
      }
      if capturedAt == None || capturedAt.value > now + CLOCK_SKEW {
        return None;
      }
      if |cookies| == 0 || |cookies| > MAX_COOKIES {
        return None;
      }
      var ok := NormaliseAll(fold, roots.value);
      if !ok {
        return None;
      }
      cookies := Sort(cookies);
      return Some(OfCookies(cookies));
    }

    /** The loop over the cookies: each is checked, normalised in place, and looked up by its key. */
    method NormaliseAll(fold: char -> char, roots: seq<string>) returns (ok: bool)
      modifies this`cookies
      ensures ok <==> AllAcceptable(fold, old(cookies), roots) && Distinct(Map(Key, Map(Normaliser(fold), old(cookies))))
      ensures ok ==> cookies == Map(Normaliser(fold), old(cookies))
    {
      var seen: set<string> := {};
      ghost var given := cookies;
      ghost var keys := Map(Key, Map(Normaliser(fold), given));
      for i := 0 to |cookies|
        invariant Halfway(fold, cookies, given, i)
        invariant forall j | 0 <= j < i :: Acceptable(fold, given[j], roots)
        invariant Remembers(seen, keys, i)
      {
        HalfwayStep(fold, cookies, given, i);
        var cookie := NormaliseOne(fold, cookies[i], roots);
        if cookie == None {
          assert given[i] in given;
          return false;
        }
        cookies := cookies[i := cookie.value];
        RemembersStep(seen, keys, i);
        if Key(cookie.value) in seen {
          return false;
        }
        seen := seen + {Key(cookie.value)};
      }
      assert keys[..|given|] == keys;
      return true;
    }
  }

  /** The loop has normalised the first i cookies in place. */
  ghost predicate Halfway(fold: char -> char, now: seq<Cookie>, given: seq<Cookie>, i: int) {
    |now| == |given| && forall j | 0 <= j < |given| :: now[j] == if j < i then Normalise(fold, given[j]) else given[j]
  }

  lemma HalfwayStep(fold: char -> char, now: seq<Cookie>, given: seq<Cookie>, i: int)
    requires 0 <= i < |given| && Halfway(fold, now, given, i)
    ensures now[i] == given[i] && Halfway(fold, now[i := Normalise(fold, given[i])], given, i + 1)
  {
  }

  /** The keys seen so far, all different. */
  ghost predicate Remembers(seen: set<string>, keys: seq<string>, i: int) {
    0 <= i <= |keys| && (forall key :: key in seen <==> key in keys[..i]) && Distinct(keys[..i])
  }

  lemma RemembersStep(seen: set<string>, keys: seq<string>, i: int)
    requires 0 <= i < |keys| && Remembers(seen, keys, i)
    ensures if keys[i] in seen then !Distinct(keys) else Remembers(seen + {keys[i]}, keys, i + 1)
  {
    DistinctExtends(keys, i);
  }

  /** One more key keeps the keys distinct exactly when it is new. */
  lemma DistinctExtends(keys: seq<string>, i: int)
    requires 0 <= i < |keys| && Distinct(keys[..i])
    ensures keys[..i + 1] == keys[..i] + [keys[i]]
    ensures Distinct(keys[..i + 1]) <==> keys[i] !in keys[..i]
    ensures keys[i] in keys[..i] ==> !Distinct(keys)
  {
    if keys[i] in keys[..i] {
      var j :| 0 <= j < i && keys[..i][j] == keys[i];
      assert keys[..i + 1][j] == keys[..i + 1][i];
    }
  }

  method NormaliseOne(fold: char -> char, cookie: Cookie, roots: seq<string>) returns (r: Option<Cookie>)
    ensures r == if Acceptable(fold, cookie, roots) then Some(Normalise(fold, cookie)) else None
  {
    if Unsafe(cookie.domain) || Unsafe(cookie.path) || Unsafe(cookie.name) || Unsafe(cookie.value) {
      return None;
    }
    var domain := Lower(fold, Trim(cookie.domain));
    var path := Trim(cookie.path);
    if path == "" || path[0] != '/' || !AllowedDomain(domain, roots) || cookie.name == "" || cookie.expiration < 0 {
      return None;
    }
    if cookie.sameSite !in ["", "unspecified", "no_restriction", "lax", "strict"] {
      return None;
    }
    return Some(cookie.(domain := domain, path := path));
  }

  // ------------------------------------------------------------------ order

  lemma {:induction false} LessTotal(a: string, b: string)
    ensures a == b || Less(a, b) || Less(b, a)
    ensures !(Less(a, b) && Less(b, a)) && !Less(a, a)
  {
    if a != [] && b != [] {
      LessTotal(a[1..], b[1..]);
      if a[0] == b[0] && a[1..] == b[1..] {
        assert a == [a[0]] + a[1..] && b == [b[0]] + b[1..];
      }
    }
    if a != [] { LessIrreflexive(a); }
  }

  lemma {:induction false} LessIrreflexive(a: string)
    ensures !Less(a, a)
  {
    if a != [] { LessIrreflexive(a[1..]); }
  }

  lemma {:induction false} LessTransitive(a: string, b: string, c: string)
    requires Less(a, b) && Less(b, c)
    ensures Less(a, c)
  {
    if a != [] && a[0] == b[0] && b[0] == c[0] {
      LessTransitive(a[1..], b[1..], c[1..]);
    }
  }

  lemma BeforeTotal(a: Cookie, b: Cookie)
    ensures Triple(a) == Triple(b) || Before(a, b) || Before(b, a)
    ensures !(Before(a, b) && Before(b, a)) && !Before(a, a)
  {
    LessTotal(a.domain, b.domain);
    LessTotal(a.path, b.path);
    LessTotal(a.name, b.name);
    LessIrreflexive(a.name);
  }

  lemma BeforeTransitive(a: Cookie, b: Cookie, c: Cookie)
    requires Before(a, b) && Before(b, c)
    ensures Before(a, c)
  {
    if a.domain != b.domain {
      if b.domain != c.domain { LessTransitive(a.domain, b.domain, c.domain); }
      LessTotal(a.domain, b.domain);
      LessTotal(a.domain, c.domain);
    } else if b.domain == c.domain {
      LessTotal(a.path, b.path);
      LessTotal(b.path, c.path);
      if a.path != b.path && b.path != c.path { LessTransitive(a.path, b.path, c.path); LessTotal(a.path, c.path); }
      if a.path == b.path && b.path == c.path { LessTransitive(a.name, b.name, c.name); }
    }
  }

  // ------------------------------------------------------------------ sorting

  lemma {:induction false} InsertSorted(c: Cookie, s: seq<Cookie>)
    requires StrictlySorted(s) && forall x | x in s :: Triple(x) != Triple(c)
    ensures StrictlySorted(Insert(c, s))
    ensures multiset(Insert(c, s)) == multiset([c]) + multiset(s)
  {
    if s != [] {
      BeforeTotal(s[0], c);
      if Before(s[0], c) {
        InsertSorted(c, s[1..]);
        assert s == [s[0]] + s[1..];
        var rest := Insert(c, s[1..]);
        forall x | x in rest ensures Before(s[0], x) {
          assert x in multiset(rest);
          assert x == c || x in s[1..];
        }
      } else {
        forall x | x in s ensures Before(c, x) {
          if x != s[0] { BeforeTransitive(c, s[0], x); }
        }
      }
    }
  }

  lemma {:induction false} SortSorts(s: seq<Cookie>)
    requires Distinct(Map(Triple, s))
    ensures StrictlySorted(Sort(s)) && multiset(Sort(s)) == multiset(s)
  {
    if s != [] {
      var rest := s[1..];
      assert s == [s[0]] + rest;
      assert Map(Triple, rest) == Map(Triple, s)[1..];
      SortSorts(rest);
      forall x | x in Sort(rest) ensures Triple(x) != Triple(s[0]) {
        assert x in multiset(Sort(rest));
        var i :| 0 <= i < |rest| && rest[i] == x;
        assert Map(Triple, s)[i + 1] == Triple(x);
      }
      InsertSorted(s[0], Sort(rest));
    }
  }

  /** The first of a sorted list is before everything else in it. */
  lemma FirstIsLeast(a: seq<Cookie>, x: Cookie)
    requires StrictlySorted(a) && a != [] && x in multiset(a)
    ensures x == a[0] || Before(a[0], x)
  {
    assert x in a;
  }

  lemma SameFirst(a: seq<Cookie>, b: seq<Cookie>)
    requires StrictlySorted(a) && StrictlySorted(b) && multiset(a) == multiset(b) && a != [] && b != []
    ensures a[0] == b[0]
  {
    assert a[0] in multiset(a) && b[0] in multiset(b);
    FirstIsLeast(a, b[0]);
    FirstIsLeast(b, a[0]);
    BeforeTotal(a[0], b[0]);
  }

  lemma SameRest<T>(a: seq<T>, b: seq<T>)
    requires multiset(a) == multiset(b) && a != [] && b != [] && a[0] == b[0]
    ensures multiset(a[1..]) == multiset(b[1..])
  {
    assert a == [a[0]] + a[1..] && b == [b[0]] + b[1..];
    assert multiset(a[1..]) == multiset(a) - multiset([a[0]]);
    assert multiset(b[1..]) == multiset(b) - multiset([a[0]]);
  }

  /** A set of cookies with distinct triples has one sorted arrangement. */
  lemma {:induction false} SortIsCanonical(a: seq<Cookie>, b: seq<Cookie>)
    requires StrictlySorted(a) && StrictlySorted(b) && multiset(a) == multiset(b)
    ensures a == b
  {
    assert |a| == |multiset(a)| && |b| == |multiset(b)|;
    if a != [] {
      SameFirst(a, b);
      SameRest(a, b);
      SortIsCanonical(a[1..], b[1..]);
      assert a == [a[0]] + a[1..] && b == [b[0]] + b[1..];
    }
  }

  // ------------------------------------------------------------------ permutations

  lemma MultisetRemoves<T>(s: seq<T>, j: int)
    requires 0 <= j < |s|
    ensures multiset(s) == multiset(s[..j] + s[j + 1..]) + multiset([s[j]])
  {
    assert s == s[..j] + [s[j]] + s[j + 1..];
  }

  lemma {:induction false} MapRemoves<A, B>(f: A -> B, s: seq<A>, j: int)
    requires 0 <= j < |s|
    ensures multiset(Map(f, s)) == multiset(Map(f, s[..j] + s[j + 1..])) + multiset([f(s[j])])
  {
    var m, shorter := Map(f, s), s[..j] + s[j + 1..];
    MultisetRemoves(m, j);
    assert m[..j] + m[j + 1..] == Map(f, shorter) by {
      forall i | 0 <= i < |shorter| ensures (m[..j] + m[j + 1..])[i] == Map(f, shorter)[i] {}
    }
  }

  /** The first element of one arrangement, found in and removed from another. */
  lemma RemoveFirst<T>(a: seq<T>, b: seq<T>) returns (j: int)
    requires multiset(a) == multiset(b) && a != []
    ensures 0 <= j < |b| && b[j] == a[0]
    ensures multiset(a[..0] + a[1..]) == multiset(b[..j] + b[j + 1..])
  {
    assert a[0] in multiset(b);
    j :| 0 <= j < |b| && b[j] == a[0];
    MultisetRemoves(a, 0);
    MultisetRemoves(b, j);
    var one := multiset([a[0]]);
    assert multiset(a[..0] + a[1..]) == multiset(a) - one && multiset(b[..j] + b[j + 1..]) == multiset(b) - one;
  }

  lemma {:induction false} MapPermutes<A, B>(f: A -> B, a: seq<A>, b: seq<A>)
    requires multiset(a) == multiset(b)
    ensures multiset(Map(f, a)) == multiset(Map(f, b))
    decreases |a|
  {
    if a == [] {
      assert |multiset(b)| == 0;
    } else {
      var j := RemoveFirst(a, b);
      MapPermutes(f, a[..0] + a[1..], b[..j] + b[j + 1..]);
      MapRemoves(f, a, 0);
      MapRemoves(f, b, j);
    }
  }

  lemma {:induction false} DistinctCounts<T>(s: seq<T>)
    ensures Distinct(s) <==> forall x :: multiset(s)[x] <= 1
  {
    if s != [] {
      var rest := s[1..];
      assert s == [s[0]] + rest;
      DistinctCounts(rest);
      assert multiset(s) == multiset([s[0]]) + multiset(rest);
      DistinctSplits(s);
      assert forall x :: multiset(s)[x] == multiset(rest)[x] + if x == s[0] then 1 else 0;
      assert multiset(s)[s[0]] <= 1 <==> s[0] !in rest;
    }
  }

  // ------------------------------------------------------------------ theorems about uploads

  lemma DistinctKeysDistinctTriples(s: seq<Cookie>)
    requires Distinct(Map(Key, s))
    ensures Distinct(Map(Triple, s))
  {
    forall i, j | 0 <= i < j < |s| ensures Triple(s[i]) != Triple(s[j]) {
      assert Map(Key, s)[i] != Map(Key, s)[j];
    }
  }

  /** Every accepted list is strictly sorted, has pairwise distinct triples, and is the normalised upload. */
  lemma AcceptedIsCanonical(fold: char -> char, roots: Option<seq<string>>, d: Draft, now: int)
    requires Validate(fold, roots, d, now).Accepted?
    ensures var cookies := Validate(fold, roots, d, now).cookies;
            && StrictlySorted(cookies)
            && Distinct(Map(Triple, cookies))
            && multiset(cookies) == multiset(Map(Normaliser(fold), d.cookies))
            && Validate(fold, roots, d, now).digest == OfCookies(cookies)
  {
    var normal := Map(Normaliser(fold), d.cookies);
    DistinctKeysDistinctTriples(normal);
    SortSorts(normal);
    var sorted := Sort(normal);
    forall i, j | 0 <= i < j < |sorted| ensures Map(Triple, sorted)[i] != Map(Triple, sorted)[j] {
      assert Before(sorted[i], sorted[j]);
      LessIrreflexive(sorted[i].name);
    }
  }

  lemma AllAcceptablePermutes(fold: char -> char, a: seq<Cookie>, b: seq<Cookie>, roots: seq<string>)
    requires multiset(a) == multiset(b)
    ensures AllAcceptable(fold, a, roots) <==> AllAcceptable(fold, b, roots)
  {
    forall c ensures c in a <==> c in b {
      assert c in a <==> c in multiset(a);
      assert c in b <==> c in multiset(b);
    }
  }

  /** The order in which cookies are uploaded does not matter: neither to acceptance, nor to the
      stored list, nor to its digest. */
  lemma OrderIndependent(fold: char -> char, roots: Option<seq<string>>, d: Draft, permuted: seq<Cookie>, now: int)
    requires multiset(d.cookies) == multiset(permuted)
    ensures Validate(fold, roots, d, now) == Validate(fold, roots, d.(cookies := permuted), now)
  {
    var e := d.(cookies := permuted);
    assert |multiset(d.cookies)| == |d.cookies| && |multiset(permuted)| == |permuted|;
    if Admissible(roots, d, now) {
      AllAcceptablePermutes(fold, d.cookies, permuted, roots.value);
      var a, b := Map(Normaliser(fold), d.cookies), Map(Normaliser(fold), permuted);
      MapPermutes(Normaliser(fold), d.cookies, permuted);
      MapPermutes(Key, a, b);
      DistinctCounts(Map(Key, a));
      DistinctCounts(Map(Key, b));
      if Distinct(Map(Key, a)) {
        DistinctKeysDistinctTriples(a);
        DistinctKeysDistinctTriples(b);
        SortSorts(a);
        SortSorts(b);
        SortIsCanonical(Sort(a), Sort(b));
      }
    }
  }

  // ------------------------------------------------------------------ acceptance, field by field

  /** From position i on, t is s without its longest ends of white space. */
  predicate Trims(s: string, t: string, i: int) {
    && 0 <= i <= |s| - |t| && s[i..i + |t|] == t
    && (forall k | 0 <= k < i :: IsSpace(s[k])) && (forall k | i + |t| <= k < |s| :: IsSpace(s[k]))
    && (t != [] ==> !IsSpace(t[0]) && !IsSpace(t[|t|-1]))
  }

  lemma {:induction false} TrimRightTrims(s: string)
    ensures TrimRight(s) <= s && (forall k | |TrimRight(s)| <= k < |s| :: IsSpace(s[k]))
    ensures TrimRight(s) != [] ==> !IsSpace(TrimRight(s)[|TrimRight(s)|-1])
    decreases |s|
  {
    if s != [] && IsSpace(s[|s|-1]) { TrimRightTrims(s[..|s|-1]); }
  }

  lemma {:induction false} TrimLeftTrims(s: string) returns (i: nat)
    ensures i <= |s| && TrimLeft(s) == s[i..] && (forall k | 0 <= k < i :: IsSpace(s[k]))
    ensures i < |s| ==> !IsSpace(s[i])
    decreases |s|
  {
    if s != [] && IsSpace(s[0]) {
      i := TrimLeftTrims(s[1..]);
      i := i + 1;
    } else {
      i := 0;
    }
  }

  lemma TrimTrims(s: string) returns (i: nat)
    ensures Trims(s, Trim(s), i)
  {
    i := TrimLeftTrims(s);
    var left := s[i..];
    TrimRightTrims(left);
    var t := TrimRight(left);
    assert s[i..i + |t|] == left[..|t|];
    forall k | i + |t| <= k < |s| ensures IsSpace(s[k]) { assert s[k] == left[k - i]; }
  }

  lemma TrimmedOnce(s: string, t: string, u: string, i: int, j: int)
    requires Trims(s, t, i) && Trims(s, u, j)
    ensures t == u
  {
    if t != [] { assert t[0] == s[i] && t[|t|-1] == s[i + |t| - 1]; }
    if u != [] { assert u[0] == s[j] && u[|u|-1] == s[j + |u| - 1]; }
  }

  /** The stored cookie has the trimmed path of the given one, its trimmed and lower-cased domain, and every other
      field as it was. */
  ghost predicate Tidied(fold: char -> char, given: Cookie, kept: Cookie) {
    && (exists i :: Trims(given.path, kept.path, i))
    && (exists t, i :: Trims(given.domain, t, i) && FoldsTo(fold, t, kept.domain))
    && kept.name == given.name && kept.value == given.value && kept.expiration == given.expiration
    && kept.secure == given.secure && kept.httpOnly == given.httpOnly && kept.sameSite == given.sameSite
  }

  predicate FoldsTo(fold: char -> char, s: string, t: string) {
    |t| == |s| && forall k | 0 <= k < |s| :: t[k] == fold(s[k])
  }

  lemma {:induction false} LowerFolds(fold: char -> char, s: string)
    ensures FoldsTo(fold, s, Lower(fold, s))
  {
    if s != [] { LowerFolds(fold, s[1..]); }
  }

  /** There is one way to tidy a cookie. */
  lemma TidiedIsNormal(fold: char -> char, given: Cookie, kept: Cookie)
    ensures Tidied(fold, given, kept) <==> kept == Normalise(fold, given)
  {
    var p := TrimTrims(given.path);
    var q := TrimTrims(given.domain);
    LowerFolds(fold, Trim(given.domain));
    if Tidied(fold, given, kept) {
      var i :| Trims(given.path, kept.path, i);
      TrimmedOnce(given.path, kept.path, Trim(given.path), i, p);
      var t, j :| Trims(given.domain, t, j) && FoldsTo(fold, t, kept.domain);
      TrimmedOnce(given.domain, t, Trim(given.domain), j, q);
      assert kept.domain == Lower(fold, t);
    }
  }

  predicate OneLine(s: string) {
    forall k | 0 <= k < |s| :: s[k] as int !in {9, 10, 13}
  }

  /** The domain is the root, or has the root behind a dot; one leading dot does not count. */
  predicate Within(domain: string, root: string) {
    var start := if domain != [] && domain[0] == '.' then 1 else 0;
    var rest := |domain| - |root|;
    && start <= rest && domain[rest..] == root
    && (rest == start || domain[rest - 1] == '.')
  }

  /** What a given cookie and its tidy form must be. */
  ghost predicate Proper(given: Cookie, kept: Cookie, roots: seq<string>) {
    && OneLine(given.domain) && OneLine(given.path) && OneLine(given.name) && OneLine(given.value)
    && |kept.path| > 0 && kept.path[0] == '/' && |kept.name| > 0 && kept.expiration >= 0
    && (exists k :: 0 <= k < |roots| && Within(kept.domain, roots[k]))
    && (kept.sameSite == "" || kept.sameSite == "unspecified" || kept.sameSite == "no_restriction"
        || kept.sameSite == "lax" || kept.sameSite == "strict")
  }

  lemma AllowedIsWithin(domain: string, roots: seq<string>)
    ensures AllowedDomain(domain, roots) <==> exists k :: 0 <= k < |roots| && Within(domain, roots[k])
  {
    var bare := if domain != [] && domain[0] == '.' then domain[1..] else domain;
    forall k | 0 <= k < |roots|
      ensures Within(domain, roots[k]) <==> bare == roots[k] || HasSuffix(bare, "." + roots[k])
    {
      WithinIsSuffix(domain, bare, roots[k]);
    }
    if AllowedDomain(domain, roots) {
      var root :| root in roots && (bare == root || HasSuffix(bare, "." + root));
      var k :| 0 <= k < |roots| && roots[k] == root;
    }
    if k :| 0 <= k < |roots| && Within(domain, roots[k]) { assert roots[k] in roots; }
  }

  lemma WithinIsSuffix(domain: string, bare: string, root: string)
    requires bare == if domain != [] && domain[0] == '.' then domain[1..] else domain
    ensures Within(domain, root) <==> bare == root || HasSuffix(bare, "." + root)
  {
    var start := |domain| - |bare|;
    assert bare == domain[start..];
    var dotted := "." + root;
    if |dotted| <= |bare| {
      var tail := bare[|bare| - |dotted|..];
      assert tail == [bare[|bare| - |root| - 1]] + bare[|bare| - |root|..];
      assert bare[|bare| - |root|..] == domain[|domain| - |root|..];
      assert dotted[0] == '.' && dotted[1..] == root && tail[1..] == bare[|bare| - |root|..];
    }
  }

  lemma ProperIsAcceptable(fold: char -> char, c: Cookie, roots: seq<string>)
    ensures Proper(c, Normalise(fold, c), roots) <==> Acceptable(fold, c, roots)
  {
    AllowedIsWithin(Normalise(fold, c).domain, roots);
    forall s: string ensures OneLine(s) <==> !Unsafe(s) {}
  }

  lemma TidiedAreNormal(fold: char -> char, cookies: seq<Cookie>, tidied: seq<Cookie>)
    requires |tidied| == |cookies| && forall i | 0 <= i < |tidied| :: Tidied(fold, cookies[i], tidied[i])
    ensures tidied == Map(Normaliser(fold), cookies)
  {
    forall i | 0 <= i < |tidied| ensures tidied[i] == Normalise(fold, cookies[i]) {
      TidiedIsNormal(fold, cookies[i], tidied[i]);
    }
  }

  /** Everything but the cookies: a known provider, the schema, the reason, a capture no more than five minutes in
      the future, and between 1 and 5000 cookies. */
  predicate EnvelopeInOrder(roots: Option<seq<string>>, d: Draft, now: int) {
    && roots.Some? && d.schemaVersion == 1 && (d.reason == "" || d.reason == "ordinary" || d.reason == "recovery")
    && d.capturedAt.Some? && d.capturedAt.value <= now + 300 && 1 <= |d.cookies| <= 5000
  }

  lemma EnvelopeIsAdmissible(roots: Option<seq<string>>, d: Draft, now: int)
    ensures EnvelopeInOrder(roots, d, now) <==> Admissible(roots, d, now)
  {
    assert d.reason in ["", "ordinary", "recovery"] <==> d.reason == "" || d.reason == "ordinary" || d.reason == "recovery";
  }

  /** Acceptance told from the upload and its tidied cookies alone: the envelope is in order, every cookie is proper,
      no triple is repeated and none merges into another. */
  lemma AcceptedExactly(fold: char -> char, roots: Option<seq<string>>, d: Draft, now: int, tidied: seq<Cookie>)
    requires |tidied| == |d.cookies| && forall i | 0 <= i < |tidied| :: Tidied(fold, d.cookies[i], tidied[i])
    ensures Validate(fold, roots, d, now).Accepted? <==>
      && EnvelopeInOrder(roots, d, now)
      && (forall i | 0 <= i < |tidied| :: Proper(d.cookies[i], tidied[i], roots.value))
      && Distinct(Map(Triple, tidied)) && !AnyMerge(tidied)
  {
    TidiedAreNormal(fold, d.cookies, tidied);
    EnvelopeIsAdmissible(roots, d, now);
    if Admissible(roots, d, now) {
      AllProper(fold, d.cookies, roots.value, tidied);
      if AllAcceptable(fold, d.cookies, roots.value) { DuplicatesExactly(fold, roots, d, now); }
    }
  }

  lemma AllProper(fold: char -> char, cookies: seq<Cookie>, roots: seq<string>, tidied: seq<Cookie>)
    requires tidied == Map(Normaliser(fold), cookies)
    ensures AllAcceptable(fold, cookies, roots)
       <==> forall i | 0 <= i < |tidied| :: Proper(cookies[i], tidied[i], roots)
  {
    forall i | 0 <= i < |tidied| ensures Proper(cookies[i], tidied[i], roots) <==> Acceptable(fold, cookies[i], roots) {
      ProperIsAcceptable(fold, cookies[i], roots);
    }
    if AllAcceptable(fold, cookies, roots) {
      forall i | 0 <= i < |tidied| ensures Acceptable(fold, cookies[i], roots) { assert cookies[i] in cookies; }
    }
  }

  /** The byte order of texts: at the first difference the smaller character, or the end, comes first. */
  ghost predicate Precedes(a: string, b: string, k: int) {
    && 0 <= k <= |a| && k < |b| && a[..k] == b[..k] && (k == |a| || a[k] < b[k])
  }

  lemma PrefixHead(a: string, b: string, k: int)
    requires Precedes(a, b, k) && k > 0
    ensures a[0] == b[0]
  {
    assert a[..k][0] == b[..k][0];
  }

  lemma {:induction false} LessExactly(a: string, b: string)
    ensures Less(a, b) <==> exists k :: Precedes(a, b, k)
  {
    if a != [] && b != [] {
      forall k | Precedes(a, b, k) && k > 0 ensures a[0] == b[0] { PrefixHead(a, b, k); }
    }
    if b == [] {
    } else if a == [] {
      assert Precedes(a, b, 0);
    } else if a[0] != b[0] {
      if a[0] < b[0] { assert Precedes(a, b, 0); }
    } else {
      LessExactly(a[1..], b[1..]);
      if k :| Precedes(a[1..], b[1..], k) {
        assert a[..k + 1] == [a[0]] + a[1..][..k] && b[..k + 1] == [b[0]] + b[1..][..k];
        assert Precedes(a, b, k + 1);
      }
      if k :| Precedes(a, b, k) {
        assert k > 0;
        assert a[1..][..k - 1] == a[..k][1..] && b[1..][..k - 1] == b[..k][1..];
        assert Precedes(a[1..], b[1..], k - 1);
      }
    }
  }

  /** Accepted cookies stand in the order of their domains, then of their paths, then of their names. */
  lemma AcceptedIsOrdered(fold: char -> char, roots: Option<seq<string>>, d: Draft, now: int, i: int, j: int)
    requires Validate(fold, roots, d, now).Accepted?
    requires 0 <= i < j < |Validate(fold, roots, d, now).cookies|
    ensures var a, b := Validate(fold, roots, d, now).cookies[i], Validate(fold, roots, d, now).cookies[j];
            if a.domain != b.domain then exists k :: Precedes(a.domain, b.domain, k)
            else if a.path != b.path then exists k :: Precedes(a.path, b.path, k)
            else exists k :: Precedes(a.name, b.name, k)
  {
    AcceptedIsCanonical(fold, roots, d, now);
    var a, b := Validate(fold, roots, d, now).cookies[i], Validate(fold, roots, d, now).cookies[j];
    assert Before(a, b);
    LessExactly(a.domain, b.domain);
    LessExactly(a.path, b.path);
    LessExactly(a.name, b.name);
  }

  /** Everything about a cookie but where it applies. */
  function Login(c: Cookie): (string, string, int, bool, bool, string) {
    (c.name, c.value, c.expiration, c.secure, c.httpOnly, c.sameSite)
  }

  /** What was uploaded is what is accepted: every upload has its tidied cookies, and acceptance loses and changes no
      name, value, expiry, flag or SameSite. */
  lemma AcceptedLosesNothing(fold: char -> char, roots: Option<seq<string>>, d: Draft, now: int)
    requires Validate(fold, roots, d, now).Accepted?
    ensures multiset(Map(Login, Validate(fold, roots, d, now).cookies)) == multiset(Map(Login, d.cookies))
    ensures exists tidied: seq<Cookie> ::
      && |tidied| == |d.cookies| && (forall i | 0 <= i < |tidied| :: Tidied(fold, d.cookies[i], tidied[i]))
      && multiset(Validate(fold, roots, d, now).cookies) == multiset(tidied)
    ensures Validate(fold, roots, d, now).reason == (if d.reason == "recovery" then "recovery" else "ordinary")
  {
    var tidied := NormalAreTidied(fold, d.cookies);
    AcceptedIsCanonical(fold, roots, d, now);
    EnvelopeIsAdmissible(roots, d, now);
    MapPermutes(Login, Validate(fold, roots, d, now).cookies, tidied);
  }

  lemma NormalAreTidied(fold: char -> char, cookies: seq<Cookie>) returns (tidied: seq<Cookie>)
    ensures tidied == Map(Normaliser(fold), cookies)
    ensures forall i | 0 <= i < |tidied| :: Tidied(fold, cookies[i], tidied[i])
    ensures Map(Login, tidied) == Map(Login, cookies)
  {
    tidied := Map(Normaliser(fold), cookies);
    forall i | 0 <= i < |tidied| ensures Tidied(fold, cookies[i], tidied[i]) {
      TidiedIsNormal(fold, cookies[i], tidied[i]);
    }
  }

  // ------------------------------------------------------------------ keys and zero bytes

  /** Where a joins b by a zero byte and c joins d, the byte that joins c and d is further on: c takes in a and
      more, and b begins with what c took. */
  predicate Slides(a: string, b: string, c: string, d: string) {
    |a| < |c| && c[..|a| + 1] == a + "\0" && b == c[|a| + 1..] + "\0" + d
  }

  predicate SameParts(a: string, b: string, c: string, d: string) {
    (a == c && b == d) || Slides(a, b, c, d) || Slides(c, d, a, b)
  }

  lemma SlidesJoins(a: string, b: string, c: string, d: string)
    requires |a| < |c|
    ensures a + "\0" + b == c + "\0" + d <==> Slides(a, b, c, d)
  {
    var left, right, more := a + "\0" + b, c + "\0" + d, c[|a| + 1..];
    if left == right {
      assert c == right[..|c|] == left[..|c|];
      assert left[..|a| + 1] == a + "\0" && left[|a| + 1..] == b;
      assert c[..|a| + 1] == left[..|a| + 1];
      assert right[|a| + 1..] == more + "\0" + d;
    }
    if Slides(a, b, c, d) {
      assert c == a + "\0" + more;
      assert left == a + "\0" + (more + "\0" + d) == a + "\0" + more + "\0" + d;
    }
  }

  /** Two texts joined by a zero byte are equal exactly when the parts are, or the byte slid. */
  lemma JoinedTwice(a: string, b: string, c: string, d: string)
    ensures a + "\0" + b == c + "\0" + d <==> SameParts(a, b, c, d)
  {
    var left, right := a + "\0" + b, c + "\0" + d;
    if |a| < |c| {
      SlidesJoins(a, b, c, d);
    } else if |c| < |a| {
      SlidesJoins(c, d, a, b);
    } else if left == right {
      assert a == left[..|a|] && c == right[..|a|];
      assert b == left[|a| + 1..] && d == right[|a| + 1..];
    }
  }

  /** How p joined with q can be x joined with y and z. */
  predicate ThreeParts(x: string, y: string, z: string, p: string, q: string) {
    || (p == x && q == y + "\0" + z)
    || Slides(p, q, x, y + "\0" + z)
    || (|x| < |p| && p[..|x| + 1] == x + "\0" && SameParts(y, z, p[|x| + 1..], q))
  }

  lemma JoinedThrice(x: string, y: string, z: string, p: string, q: string)
    ensures p + "\0" + q == x + "\0" + (y + "\0" + z) <==> ThreeParts(x, y, z, p, q)
  {
    JoinedTwice(p, q, x, y + "\0" + z);
    if |x| < |p| { JoinedTwice(y, z, p[|x| + 1..], q); }
  }

  /** The fields of c and d differ, but a zero byte in a field of d stands where c has its own separator: in the
      path when the domains agree, or else in the domain. */
  predicate Merges(c: Cookie, d: Cookie) {
    var n := |c.domain|;
    || (c.domain == d.domain && Slides(c.path, c.name, d.path, d.name))
    || (n < |d.domain| && d.domain[..n + 1] == c.domain + "\0"
        && ThreeParts(d.domain[n + 1..], d.path, d.name, c.path, c.name))
  }

  lemma LongerDomainMerges(c: Cookie, d: Cookie)
    requires |c.domain| < |d.domain|
    ensures Key(c) == Key(d) <==> Merges(c, d)
  {
    var restC, restD := c.path + "\0" + c.name, d.path + "\0" + d.name;
    var n := |c.domain|;
    assert Key(c) == c.domain + "\0" + restC && Key(d) == d.domain + "\0" + restD;
    SlidesJoins(c.domain, restC, d.domain, restD);
    var x := d.domain[n + 1..];
    assert x + "\0" + restD == x + "\0" + (d.path + "\0" + d.name);
    JoinedThrice(x, d.path, d.name, c.path, c.name);
  }

  lemma EqualDomainMerges(c: Cookie, d: Cookie)
    requires |c.domain| == |d.domain|
    ensures Key(c) == Key(d) <==> Triple(c) == Triple(d) || Merges(c, d) || Merges(d, c)
  {
    var restC, restD := c.path + "\0" + c.name, d.path + "\0" + d.name;
    assert Key(c) == c.domain + "\0" + restC && Key(d) == d.domain + "\0" + restD;
    JoinedTwice(c.domain, restC, d.domain, restD);
    JoinedTwice(c.path, c.name, d.path, d.name);
  }

  /** Two cookies are taken for duplicates exactly when they share domain, path and name, or one merges into
      the other. */
  lemma KeysCollideExactly(c: Cookie, d: Cookie)
    ensures Key(c) == Key(d) <==> Triple(c) == Triple(d) || Merges(c, d) || Merges(d, c)
    ensures Merges(c, d) ==> Triple(c) != Triple(d)
  {
    if |c.domain| < |d.domain| {
      LongerDomainMerges(c, d);
    } else if |d.domain| < |c.domain| {
      LongerDomainMerges(d, c);
    } else {
      EqualDomainMerges(c, d);
    }
  }

  predicate NoZero(c: Cookie) {
    '\0' !in c.domain && '\0' !in c.path && '\0' !in c.name
  }

  /** Without zero bytes, two cookies share a key exactly when they share domain, path and name. */
  lemma KeysSeparateTriples(c: Cookie, d: Cookie)
    requires NoZero(c) && NoZero(d)
    ensures Key(c) == Key(d) <==> Triple(c) == Triple(d)
  {
    KeysCollideExactly(c, d);
    MergingNeedsZero(c, d);
    MergingNeedsZero(d, c);
  }

  lemma MergingNeedsZero(c: Cookie, d: Cookie)
    ensures Merges(c, d) ==> !NoZero(d)
  {
    if Merges(c, d) {
      if c.domain == d.domain {
        assert d.path[..|c.path| + 1][|c.path|] == '\0';
      } else {
        assert d.domain[..|c.domain| + 1][|c.domain|] == '\0';
      }
    }
  }

  ghost predicate AnyMerge(cookies: seq<Cookie>) {
    exists i, j | 0 <= i < |cookies| && 0 <= j < |cookies| :: Merges(cookies[i], cookies[j])
  }

  /** An upload of acceptable cookies is accepted exactly when no triple is repeated and no cookie merges into
      another; so it is refused without a repeated triple exactly when some cookie does. */
  lemma DuplicatesExactly(fold: char -> char, roots: Option<seq<string>>, d: Draft, now: int)
    requires Admissible(roots, d, now) && AllAcceptable(fold, d.cookies, roots.value)
    ensures var normal := Map(Normaliser(fold), d.cookies);
            Validate(fold, roots, d, now).Accepted? <==> Distinct(Map(Triple, normal)) && !AnyMerge(normal)
  {
    var normal := Map(Normaliser(fold), d.cookies);
    var keys, triples := Map(Key, normal), Map(Triple, normal);
    forall i, j | 0 <= i < |normal| && 0 <= j < |normal|
      ensures keys[i] == keys[j] <==> triples[i] == triples[j] || Merges(normal[i], normal[j]) || Merges(normal[j], normal[i])
      ensures Merges(normal[i], normal[j]) ==> i != j
    {
      KeysCollideExactly(normal[i], normal[j]);
    }
    if Distinct(keys) {
      forall i, j | 0 <= i < j < |normal| ensures triples[i] != triples[j] { assert keys[i] != keys[j]; }
      forall i, j | 0 <= i < |normal| && 0 <= j < |normal| ensures !Merges(normal[i], normal[j]) {
        if i != j { assert keys[i] != keys[j]; }
      }
    }
    if Distinct(triples) && !AnyMerge(normal) {
      forall i, j | 0 <= i < j < |normal| ensures keys[i] != keys[j] { assert triples[i] != triples[j]; }
    }
  }

  lemma TrimKeeps(s: string)
    requires s != [] && !IsSpace(s[0]) && !IsSpace(s[|s|-1])
    ensures Trim(s) == s
  {
  }

  lemma {:induction false} LowerKeeps(fold: char -> char, s: string)
    requires Lowering(fold) && forall i | 0 <= i < |s| :: s[i] as int < 0x80
    requires forall i | 0 <= i < |s| :: !('A' <= s[i] <= 'Z')
    ensures Lower(fold, s) == s
  {
    if s != [] { LowerKeeps(fold, s[1..]); }
  }

  lemma SameKey(c: Cookie, d: Cookie)
    requires c.domain == d.domain && c.path == "/" && c.name == "a\0b" && d.path == "/\0a" && d.name == "b"
    ensures Key(c) == Key(d)
  {
    assert "/" + "\0" + "a\0b" == "/\0a" + "\0" + "b";
    assert Key(c) == c.domain + "\0" + ("/" + "\0" + "a\0b");
    assert Key(d) == c.domain + "\0" + ("/\0a" + "\0" + "b");
  }

  lemma PlainIsAcceptable(fold: char -> char, c: Cookie)
    requires Lowering(fold)
    requires c.domain == "x.com" && c.value == "" && c.expiration == 0 && c.sameSite == ""
    requires !Unsafe(c.path) && !Unsafe(c.name) && c.name != ""
    requires c.path != [] && c.path[0] == '/' && !IsSpace(c.path[|c.path|-1])
    ensures Acceptable(fold, c, ["x.com"]) && Normalise(fold, c) == c
  {
    TrimKeeps(c.domain);
    TrimKeeps(c.path);
    LowerKeeps(fold, c.domain);
    assert c.domain in ["x.com"];
  }

  const ONE := Cookie("x.com", "/", "a\0b", "", 0, false, false, "")
  const TWO := Cookie("x.com", "/\0a", "b", "", 0, false, false, "")

  /** With them, cookies that differ in path and name are taken for duplicates. */
  lemma ZeroBytesCollide(fold: char -> char)
    requires Lowering(fold)
    ensures Acceptable(fold, ONE, ["x.com"]) && Acceptable(fold, TWO, ["x.com"])
    ensures Triple(Normalise(fold, ONE)) != Triple(Normalise(fold, TWO)) && Key(Normalise(fold, ONE)) == Key(Normalise(fold, TWO))
  {
    PlainIsAcceptable(fold, ONE);
    PlainIsAcceptable(fold, TWO);
    SameKey(ONE, TWO);
    assert |ONE.path| != |TWO.path|;
  }
}
