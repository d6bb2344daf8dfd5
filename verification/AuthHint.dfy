/**
 The hint when the login of a snapshot expires: the earliest expiry among the cookies that carry the
 login of the provider.
 */
module AuthHint {
  import opened Cookies

  /** A cookie that says when the login ends; an expiry of 0 is a session cookie. */
  predicate Carries(names: seq<string>, c: Cookie) {
    c.name in names && c.expiration > 0
  }

  /** What the hint promises, told without an order of the cookies. */
  ghost predicate IsHint(names: seq<string>, cookies: seq<Cookie>, hint: Option<int>) {
    match hint
    case None => forall c | c in cookies :: !Carries(names, c)
    case Some(t) =>
      && (exists c :: c in cookies && Carries(names, c) && c.expiration == t)
      && (forall c | c in cookies && Carries(names, c) :: t <= c.expiration)
  }

  /** names is None for an unknown provider. */
  method AuthExpiry(names: Option<seq<string>>, cookies: seq<Cookie>) returns (hint: Option<int>)
    ensures names.None? ==> hint == None
    ensures names.Some? ==> IsHint(names.value, cookies, hint)
  {
    if names == None || |names.value| == 0 {
      return None;
    }
    hint := None;
    for i := 0 to |cookies|
      invariant IsHint(names.value, cookies[..i], hint)
    {
      assert cookies[..i + 1] == cookies[..i] + [cookies[i]];
      if cookies[i].name !in names.value || cookies[i].expiration <= 0 {
        continue;
      }
      if hint == None || cookies[i].expiration < hint.value {
        hint := Some(cookies[i].expiration);
      }
    }
    assert cookies[..|cookies|] == cookies;
  }

  /** There is one hint, whatever the order of the cookies; so publications of equal cookies agree on it. */
  lemma HintIsUnique(names: seq<string>, cookies: seq<Cookie>, others: seq<Cookie>, hint: Option<int>, other: Option<int>)
    requires IsHint(names, cookies, hint) && IsHint(names, others, other)
    requires multiset(cookies) == multiset(others)
    ensures hint == other
  {
    forall c ensures c in cookies <==> c in others {
      assert c in cookies <==> c in multiset(cookies);
      assert c in others <==> c in multiset(others);
    }
  }
}
