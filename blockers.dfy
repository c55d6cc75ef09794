/** The tracking-script filter that `blockTrackingScripts` installs on every
    outgoing request of the page: a request is aborted when its URL contains
    one of a fixed list of strings, and continued otherwise.  Only the
    decision is modelled; the routing hook that carries it out is not. */
module Blockers {
  import opened JsStrings

  /** The list the handler searches, in the source's order. */
  const BlockedDomains: seq<string> := [
    "googletagmanager.com",
    "google-analytics.com",
    "gtag/js",
    "analytics.js",
    "tctm.co",
    "callrail.com",
    "js.callrail.com"
  ]

  /** What the route handler does with one intercepted request. */
  datatype Disposition = Abort | Continue

  /** `domains.some((domain) => url.includes(domain))`, element by element. */
  predicate AnyIncluded(url: string, domains: seq<string>)
  {
    domains != [] && (Includes(url, domains[0]) || AnyIncluded(url, domains[1..]))
  }

  lemma {:induction false} AnyIncludedIff(url: string, domains: seq<string>)
    ensures AnyIncluded(url, domains) <==> exists i :: 0 <= i < |domains| && Includes(url, domains[i])
  {
    if domains != [] {
      AnyIncludedIff(url, domains[1..]);
      if exists i :: 0 <= i < |domains| && Includes(url, domains[i]) {
        var i :| 0 <= i < |domains| && Includes(url, domains[i]);
        if i > 0 {
          assert domains[1..][i - 1] == domains[i];
        }
      }
    }
  }

  /** The handler's decision for a request to `url`: abort exactly when the
      URL contains, case-sensitively and anywhere, one of the listed
      strings; continue otherwise.  Every request gets exactly one of the
      two, since they are the two constructors of `Disposition`. */
  function Decide(url: string): (d: Disposition)
    ensures d == Abort <==> exists i :: 0 <= i < |BlockedDomains| && Includes(url, BlockedDomains[i])
    ensures d == Continue <==> forall i :: 0 <= i < |BlockedDomains| ==> !Includes(url, BlockedDomains[i])
  {
    AnyIncludedIff(url, BlockedDomains);
    if AnyIncluded(url, BlockedDomains) then Abort else Continue
  }

  /** The `js.callrail.com` entry never changes a decision: any URL that
      contains it also contains `callrail.com`, which is listed before it,
      so searching the first six entries decides the same. */
  lemma CallRailEntryRedundant(url: string)
    ensures Includes(url, "js.callrail.com") ==> Includes(url, "callrail.com")
    ensures Decide(url) == Abort <==> exists i :: 0 <= i < 6 && Includes(url, BlockedDomains[i])
  {
    if Includes(url, "js.callrail.com") {
      assert OccursAt("js.callrail.com", "callrail.com", 3);
      IncludesIffOccurs("js.callrail.com", "callrail.com");
      IncludesTransitive(url, "js.callrail.com", "callrail.com");
      assert Includes(url, BlockedDomains[5]);
    }
  }

  /** Matching is a substring test anywhere in the URL, so a script named in
      a query string is blocked too. */
  lemma QueryStringIsSearched(host: string)
    ensures Decide(host + "/loader?src=analytics.js") == Abort
  {
    var url := host + "/loader?src=analytics.js";
    var i := |host| + 12;
    assert url[i..i + 12] == "analytics.js";
    assert OccursAt(url, BlockedDomains[3], i);
    IncludesIffOccurs(url, BlockedDomains[3]);
  }

  predicate IsLowerAscii(c: char)
  {
    'a' <= c <= 'z'
  }

  /** A string whose first character is a lower-case letter is not found in
      a URL that has no lower-case letter. */
  lemma {:induction false} NotIncludedWithoutLowerCase(url: string, sub: string)
    requires sub != [] && IsLowerAscii(sub[0])
    requires forall k :: 0 <= k < |url| ==> !IsLowerAscii(url[k])
    ensures !Includes(url, sub)
    decreases |url|
  {
    if |url| > 0 {
      NotIncludedWithoutLowerCase(url[1..], sub);
    }
  }

  /** Matching is case-sensitive: every listed string starts with a
      lower-case letter, so a URL written without lower-case letters is
      never aborted, even when it names a listed host in capitals. */
  lemma MatchingIsCaseSensitive(url: string)
    requires forall k :: 0 <= k < |url| ==> !IsLowerAscii(url[k])
    ensures Decide(url) == Continue
  {
    forall i | 0 <= i < |BlockedDomains|
      ensures !Includes(url, BlockedDomains[i])
    {
      NotIncludedWithoutLowerCase(url, BlockedDomains[i]);
    }
  }
}
