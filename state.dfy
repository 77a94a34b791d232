/** The application state helper: the page title, the session-cookie check and
    the one-time cache of the route table in local storage. */
module PageState {
  import opened Strings
  import opened Commerce

  const StoreTitle: string := "Vinyl Vibe Store"
  const TitlePrefix: string := "Vinyl Vibe Store - "

  // ---------------------------------------------------------------------------
  // page title

  /** Slice mode: the character at index 1 upper-cased, then the url with its
      first `_` turned into a space, from index 2 on. */
  function SliceSuffix(url: string): string
  {
    Upper(SliceTo(SliceFrom(url, 1), 1)) + SliceFrom(ReplaceFirst(url, '_', ' '), 2)
  }

  /** Upper-case mode: the whole url upper-cased, every `-` turned into a space. */
  function UpperSuffix(url: string): string
  {
    ReplaceAll(Upper(url), '-', ' ')
  }

  /** The document title for a url, in slice mode (the default) or upper-case mode. */
  function FormatPageTitle(url: string, slice: bool): (title: string)
    ensures url == "" || url == "/" ==> title == StoreTitle
    ensures url != "" && url != "/" ==> IsPrefix(TitlePrefix, title)
  {
    if url == "" || url == "/" then StoreTitle
    else if slice then TitlePrefix + SliceSuffix(url)
    else TitlePrefix + UpperSuffix(url)
  }

  /** In slice mode the suffix drops the url's first character, upper-cases the
      next one, and changes nothing after it but the url's first `_`. */
  lemma SliceModeTitle(url: string)
    requires url != "" && url != "/"
    ensures var suffix := FormatPageTitle(url, true)[|TitlePrefix|..];
      && |suffix| == |url| - 1
      && (|url| >= 2 ==> suffix[0] == UpperChar(url[1]))
      && forall j :: 2 <= j < |url| ==>
           suffix[j - 1] == if '_' in url && j == IndexOf(url, '_') then ' ' else url[j]
  {
    var suffix := FormatPageTitle(url, true)[|TitlePrefix|..];
    assert suffix == SliceSuffix(url);
    forall j | 2 <= j < |url|
      ensures suffix[j - 1] == if '_' in url && j == IndexOf(url, '_') then ' ' else url[j]
    {
      ReplaceFirstAt(url, '_', ' ', j);
    }
  }

  /** Slice mode replaces at most one underscore: any `_` after the first survives. */
  lemma LaterUnderscoresSurvive(url: string, j: nat)
    requires url != "" && url != "/"
    requires 2 <= j < |url| && url[j] == '_' && '_' in url[..j]
    ensures FormatPageTitle(url, true)[|TitlePrefix| + j - 1] == '_'
  {
    var i :| 0 <= i < j && url[..j][i] == '_';
    assert url[i] == '_';
    assert IndexOf(url, '_') <= i;
    var replaced := ReplaceFirst(url, '_', ' ');
    ReplaceFirstAt(url, '_', ' ', j);
    var head := Upper(SliceTo(SliceFrom(url, 1), 1));
    assert |head| == 1;
    assert SliceSuffix(url) == head + replaced[2..];
    assert SliceSuffix(url)[j - 1] == replaced[j];
  }

  /** In upper-case mode the suffix is the url character by character,
      upper-cased, with every `-` shown as a space. */
  lemma {:induction false} UpperModeTitle(url: string)
    requires url != "" && url != "/"
    ensures var suffix := FormatPageTitle(url, false)[|TitlePrefix|..];
      && |suffix| == |url|
      && forall i :: 0 <= i < |url| ==>
           suffix[i] == if url[i] == '-' then ' ' else UpperChar(url[i])
  {
    ReplaceAllSubstitutes(Upper(url), '-', ' ');
    assert FormatPageTitle(url, false)[|TitlePrefix|..] == Substituted(Upper(url), '-', ' ');
  }

  // ---------------------------------------------------------------------------
  // session cookie

  /** `parts.some((p) => p.startsWith(prefix))`. */
  function AnyStartsWith(parts: seq<string>, prefix: string): (r: bool)
    ensures r <==> exists i :: 0 <= i < |parts| && IsPrefix(prefix, parts[i])
  {
    if parts == [] then false
    else IsPrefix(prefix, parts[0]) || AnyStartsWith(parts[1..], prefix)
  }

  /** The access token is present when some `;`-separated piece of the cookie
      string, taken as it is, starts with the token name and `=`. */
  function IsAccessTokenValid(cookie: string, accessToken: string): bool
  {
    AnyStartsWith(Split(cookie, ';'), accessToken + "=")
  }

  /** `prefix` begins at position `p` of the cookie string, and `p` starts a piece. */
  predicate TokenAt(cookie: string, prefix: string, p: nat)
    requires p <= |cookie|
  {
    (p == 0 || cookie[p - 1] == ';') && IsPrefix(prefix, cookie[p..])
  }

  /** The check holds exactly when `ACCESS_TOKEN=` appears at the start of the
      cookie string or right after a `;` — never after `; `. */
  lemma TokenValidIffAtPieceStart(cookie: string, accessToken: string)
    requires ';' !in accessToken
    ensures IsAccessTokenValid(cookie, accessToken) <==>
            exists p :: 0 <= p <= |cookie| && TokenAt(cookie, accessToken + "=", p)
  {
    var prefix := accessToken + "=";
    assert ';' !in prefix by {
      assert forall i :: 0 <= i < |prefix| ==> prefix[i] == if i < |accessToken| then accessToken[i] else '=';
    }
    AnyPieceIffTokenAt(cookie, prefix);
  }

  lemma {:induction false} AnyPieceIffTokenAt(s: string, prefix: string)
    requires ';' !in prefix
    ensures AnyStartsWith(Split(s, ';'), prefix) <==>
            exists p :: 0 <= p <= |s| && TokenAt(s, prefix, p)
    decreases |s|
  {
    if ';' in s {
      var k := IndexOf(s, ';');
      var rest := s[k + 1..];
      AnyPieceIffTokenAt(rest, prefix);
      assert Split(s, ';') == [s[..k]] + Split(rest, ';');
      assert ([s[..k]] + Split(rest, ';'))[1..] == Split(rest, ';');
      // the first piece starts with prefix exactly when the whole string does
      assert IsPrefix(prefix, s[..k]) <==> TokenAt(s, prefix, 0) by {
        if IsPrefix(prefix, s) && |prefix| <= k {
          assert s[..k][..|prefix|] == s[..|prefix|];
        }
        if IsPrefix(prefix, s[..k]) {
          assert s[..|prefix|] == s[..k][..|prefix|];
        }
      }
      // positions inside the first piece cannot start a piece
      forall p | 1 <= p <= k ensures !TokenAt(s, prefix, p) {
        assert s[p - 1] != ';';
      }
      // positions after the first `;` correspond to positions of the rest
      forall p | k + 1 <= p <= |s|
        ensures TokenAt(s, prefix, p) <==> TokenAt(rest, prefix, p - k - 1)
      {
        assert s[p..] == rest[p - k - 1..];
        if p > k + 1 { assert s[p - 1] == rest[p - k - 2]; }
      }
      if exists p :: 0 <= p <= |s| && TokenAt(s, prefix, p) {
        var p :| 0 <= p <= |s| && TokenAt(s, prefix, p);
        if p > k { assert TokenAt(rest, prefix, p - k - 1); }
      }
      if exists q :: 0 <= q <= |rest| && TokenAt(rest, prefix, q) {
        var q :| 0 <= q <= |rest| && TokenAt(rest, prefix, q);
        assert TokenAt(s, prefix, q + k + 1);
      }
    } else {
      assert Split(s, ';') == [s];
      forall p | 1 <= p <= |s| ensures !TokenAt(s, prefix, p) {
        assert s[p - 1] != ';';
      }
      assert TokenAt(s, prefix, 0) <==> IsPrefix(prefix, s);
    }
  }

  // ---------------------------------------------------------------------------
  // the cookie string as the browser builds it, and a check that trims

  /** `document.cookie`: the cookies' `name=value` pairs joined by `"; "`. */
  function BrowserCookie(pairs: seq<string>): string
  {
    Join(pairs, "; ")
  }

  /** The pieces of a browser cookie string after `split(';')`: every pair after
      the first keeps the space that followed its `;`. */
  function SpacedPairs(pairs: seq<string>): (pieces: seq<string>)
    ensures |pieces| == |pairs|
  {
    seq(|pairs|, i requires 0 <= i < |pairs| => if i == 0 then pairs[i] else " " + pairs[i])
  }

  /** A pair as the browser stores it: it holds no `;` and starts with no space. */
  predicate WellFormedPair(pair: string)
  {
    ';' !in pair && (pair == "" || pair[0] != ' ')
  }

  lemma {:induction false} BrowserCookiePieces(pairs: seq<string>)
    requires |pairs| >= 1
    requires forall i :: 0 <= i < |pairs| ==> WellFormedPair(pairs[i])
    ensures Split(BrowserCookie(pairs), ';') == SpacedPairs(pairs)
  {
    JoinSpaced(pairs);
    forall i | 0 <= i < |pairs| ensures ';' !in SpacedPairs(pairs)[i] {
      if i > 0 {
        assert forall j :: 0 <= j < |" " + pairs[i]| ==> (" " + pairs[i])[j] == if j == 0 then ' ' else pairs[i][j - 1];
      }
    }
    SplitJoin(SpacedPairs(pairs), ';');
  }

  lemma {:induction false} JoinSpaced(pairs: seq<string>)
    requires |pairs| >= 1
    ensures Join(SpacedPairs(pairs), ";") == Join(pairs, "; ")
    decreases |pairs|
  {
    if |pairs| > 1 {
      var init := pairs[..|pairs| - 1];
      var last := pairs[|pairs| - 1];
      JoinSpaced(init);
      assert pairs == init + [last];
      assert SpacedPairs(pairs) == SpacedPairs(init) + [" " + last];
      JoinSnoc(SpacedPairs(init), " " + last, ";");
      JoinSnoc(init, last, "; ");
    }
  }

  /** `s.trimStart()` for the spaces a cookie string holds. */
  function TrimStart(s: string): string
  {
    if s != [] && s[0] == ' ' then TrimStart(s[1..]) else s
  }

  /** The check with each piece trimmed before `startsWith`. */
  function IsAccessTokenPresent(cookie: string, accessToken: string): bool
  {
    var pieces := Split(cookie, ';');
    AnyStartsWith(seq(|pieces|, i requires 0 <= i < |pieces| => TrimStart(pieces[i])), accessToken + "=")
  }

  /** With trimming, the token is found in a browser cookie string exactly when
      one of its pairs starts with `ACCESS_TOKEN=`, wherever that pair sits. */
  lemma TrimmedCheckFindsAnyPair(pairs: seq<string>, accessToken: string)
    requires |pairs| >= 1
    requires forall i :: 0 <= i < |pairs| ==> WellFormedPair(pairs[i])
    ensures IsAccessTokenPresent(BrowserCookie(pairs), accessToken) <==>
            exists i :: 0 <= i < |pairs| && IsPrefix(accessToken + "=", pairs[i])
  {
    BrowserCookiePieces(pairs);
    var pieces := Split(BrowserCookie(pairs), ';');
    var trimmed := seq(|pieces|, i requires 0 <= i < |pieces| => TrimStart(pieces[i]));
    forall i | 0 <= i < |pairs| ensures trimmed[i] == pairs[i] {
      assert TrimStart(pairs[i]) == pairs[i];
      if i > 0 {
        assert pieces[i] == " " + pairs[i];
        assert (" " + pairs[i])[1..] == pairs[i];
        assert TrimStart(" " + pairs[i]) == TrimStart(pairs[i]);
      }
    }
    assert trimmed == pairs;
  }

  lemma TwoPairPieces(a: string, b: string)
    requires WellFormedPair(a) && WellFormedPair(b)
    ensures Split(BrowserCookie([a, b]), ';') == [a, " " + b]
  {
    BrowserCookiePieces([a, b]);
    assert SpacedPairs([a, b]) == [a, " " + b];
  }

  /** As written, a token cookie that is not the first cookie is missed: in
      `"theme=dark; token=abc"` the second piece is `" token=abc"`; the trimmed
      check finds it. */
  lemma TokenAfterFirstCookieMissed()
    ensures !IsAccessTokenValid(BrowserCookie(["theme=dark", "token=abc"]), "token")
    ensures IsAccessTokenPresent(BrowserCookie(["theme=dark", "token=abc"]), "token")
  {
    var a, b := "theme=dark", "token=abc";
    assert WellFormedPair(a) && WellFormedPair(b);
    TwoPairPieces(a, b);
    var pieces := [a, " " + b];
    assert !IsPrefix("token=", pieces[0]) by { assert pieces[0][1] != "token="[1]; }
    assert !IsPrefix("token=", pieces[1]) by { assert pieces[1][0] != "token="[0]; }
    TrimmedCheckFindsAnyPair([a, b], "token");
    assert IsPrefix("token=", [a, b][1]);
  }

  // ---------------------------------------------------------------------------
  // route cache in local storage

  const RoutesKey: string := "routes"

  /** What `getItem('routes')` yields when it is truthy: absent and empty both read as missing. */
  function StoredPaths(storage: map<string, string>): Option<string>
  {
    if RoutesKey in storage && storage[RoutesKey] != "" then Some(storage[RoutesKey]) else None
  }

  /** The storage after `stashPaths`: written only when no route table is stored. */
  function Stash(storage: map<string, string>, json: string): (after: map<string, string>)
    ensures RoutesKey in after
    ensures StoredPaths(storage).None? ==> after[RoutesKey] == json
    ensures StoredPaths(storage).Some? ==> after == storage
    ensures forall k :: k != RoutesKey ==> (k in after <==> k in storage)
  {
    if StoredPaths(storage).None? then storage[RoutesKey := json] else storage
  }

  /** The first non-empty stash wins: a later stash changes nothing, and the
      stored table stays the first one. */
  lemma StashFirstWriteWins(storage: map<string, string>, first: string, second: string)
    requires StoredPaths(storage).None? && first != ""
    ensures StoredPaths(Stash(storage, first)) == Some(first)
    ensures Stash(Stash(storage, first), second) == Stash(storage, first)
    ensures StoredPaths(Stash(Stash(storage, first), second)) == Some(first)
  {
  }

  /** Stashing touches no key but `routes`. */
  lemma StashKeepsOtherKeys(storage: map<string, string>, json: string, key: string)
    requires key != RoutesKey
    ensures key in Stash(storage, json) <==> key in storage
    ensures key in storage ==> Stash(storage, json)[key] == storage[key]
  {
  }

  /** The browser state that `State` reads and writes; only local storage is modelled. */
  class State {
    var localStorage: map<string, string>

    constructor (storage: map<string, string>)
      ensures localStorage == storage
    {
      localStorage := storage;
    }

    /** `stashPaths`, given the route table already serialised. */
    method StashPaths(json: string)
      modifies this
      ensures localStorage == Stash(old(localStorage), json)
      ensures StoredPaths(old(localStorage)).Some? ==> localStorage == old(localStorage)
    {
      if StoredPaths(localStorage).None? {
        localStorage := localStorage[RoutesKey := json];
      }
    }

    /** `getPaths`: the stored route table, or nothing when none is stored. */
    method GetPaths() returns (paths: Option<string>)
      ensures paths.Some? <==> RoutesKey in localStorage && localStorage[RoutesKey] != ""
      ensures paths.Some? ==> paths.value == localStorage[RoutesKey]
    {
      if RoutesKey in localStorage && localStorage[RoutesKey] != "" {
        paths := Some(localStorage[RoutesKey]);
      } else {
        paths := None;
      }
    }
  }
}
