/**
 Values shared by the broker and its clients: cookies, scopes and digests.
 */
module Cookies {

  datatype Option<+T> = None | Some(value: T)

  datatype Cookie = Cookie(
    domain: string, path: string, name: string, value: string,
    expiration: int, secure: bool, httpOnly: bool, sameSite: string)

  datatype Scope = Scope(provider: string, profile: string)

  /** SHA-256 as a free constructor: equal digests have equal preimages.  A snapshot is hashed
      over the JSON text of its cookie list, which is itself injective in that list; a sidecar
      records the digest of the bytes of a cookie file. */
  datatype Digest = OfCookies(cookies: seq<Cookie>) | OfText(text: string)

  predicate Distinct<T(==)>(s: seq<T>) {
    forall i, j | 0 <= i < j < |s| :: s[i] != s[j]
  }

  lemma DistinctSplits<T>(s: seq<T>)
    requires s != []
    ensures Distinct(s) <==> Distinct(s[1..]) && s[0] !in s[1..]
  {
    var rest := s[1..];
    if Distinct(rest) && s[0] !in rest {
      forall i, j | 0 <= i < j < |s| ensures s[i] != s[j] {
        assert s[j] == rest[j - 1] && (i > 0 ==> s[i] == rest[i - 1]);
      }
    }
  }
}
