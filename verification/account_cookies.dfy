/**
 * How the account page of client/src/Pages/Account.jsx reads the browser:
 * whether a cookie is present, the value of the `userName` cookie, the
 * `:userName` segment of the address, and the check that the two agree.
 *
 * The browser's cookie jar is modelled as the list of cookies that it
 * serialises into `document.cookie` ("name=value" pairs joined by "; "),
 * so that what the page reads can be proved against what the jar holds.
 */
module AccountCookies {
  import opened Wrappers
  import opened JsStrings

  const USER_NAME: string := "userName"
  const DISPLAY_NAME: string := "displayName"
  /** The account page's path up to its `:userName` parameter. */
  const ACCOUNT_PATH: string := "/account/"

  /**
   * `cookie.split(';').some((item) => item.trim().startsWith(key + '='))`;
   * an empty `document.cookie` reports no cookie at all.
   */
  predicate CookieExists(cookie: string, key: string)
    ensures cookie == "" ==> !CookieExists(cookie, key)
  {
    var items := Split(cookie, ';');
    assert cookie == "" ==> items == [""] && |Trim(items[0])| == 0 && !SomeItemStarts(items[1..], key + "=");
    SomeItemStarts(items, key + "=")
  }

  /** `items.some((item) => item.trim().startsWith(prefix))`, tried from the front. */
  predicate SomeItemStarts(items: seq<string>, prefix: string)
    decreases |items|
  {
    |items| > 0 && (StartsWith(Trim(items[0]), prefix) || SomeItemStarts(items[1..], prefix))
  }

  /** Some item, trimmed, starts with `prefix`, stated by its index. */
  predicate ItemStartsAt(items: seq<string>, prefix: string) {
    exists i :: 0 <= i < |items| && StartsWith(Trim(items[i]), prefix)
  }

  /** `.some` finds an item whenever one at some index starts with the prefix. */
  lemma {:induction false} SomeItemStartsFrom(items: seq<string>, prefix: string)
    requires ItemStartsAt(items, prefix)
    ensures SomeItemStarts(items, prefix)
    decreases |items|
  {
    if !StartsWith(Trim(items[0]), prefix) {
      var i :| 0 <= i < |items| && StartsWith(Trim(items[i]), prefix);
      var rest := items[1..];
      assert i > 0 && rest[i - 1] == items[i];
      assert ItemStartsAt(rest, prefix);
      SomeItemStartsFrom(rest, prefix);
    }
  }

  /** `.some` holds only when some item, trimmed, starts with the prefix. */
  lemma {:induction false} SomeItemStartsFinds(items: seq<string>, prefix: string)
    requires SomeItemStarts(items, prefix)
    ensures ItemStartsAt(items, prefix)
    decreases |items|
  {
    if !StartsWith(Trim(items[0]), prefix) {
      SomeItemStartsFinds(items[1..], prefix);
      var i :| 0 <= i < |items[1..]| && StartsWith(Trim(items[1..][i]), prefix);
      assert items[i + 1] == items[1..][i];
    }
  }

  /** `.some` holds exactly when some item, trimmed, starts with the prefix. */
  lemma SomeItemStartsAt(items: seq<string>, prefix: string)
    ensures SomeItemStarts(items, prefix) <==> ItemStartsAt(items, prefix)
  {
    if SomeItemStarts(items, prefix) {
      SomeItemStartsFinds(items, prefix);
    }
    if ItemStartsAt(items, prefix) {
      SomeItemStartsFrom(items, prefix);
    }
  }

  /** The separator the value extraction splits on: `; key=`. */
  function Marker(key: string): (m: string)
    ensures |m| == |key| + 3 && m[0] == ';'
    ensures ';' !in key ==> ';' !in m[1..]
  {
    var m := "; " + key + "=";
    assert m[1..] == " " + key + "=";
    m
  }

  /** `(`; ${cookie}`).split(`; ${key}=`).pop().split(';')[0]` */
  function CookieValue(cookie: string, key: string): (r: string)
    ensures ';' !in r
  {
    Split(Last(SplitOn("; " + cookie, Marker(key))), ';')[0]
  }

  /**
   * The value read for `key` is the text after the LAST `; key=` in
   * `"; " + cookie`, up to the next `;` or the end of the string; it is
   * empty when the marker does not occur, because the prefixed string then
   * starts with `;`.
   */
  lemma ValueFollowsLastMarker(cookie: string, key: string)
    requires ';' !in key
    ensures CookieValue(cookie, key) == Split(AfterLastOccurrence("; " + cookie, Marker(key)), ';')[0]
    ensures var rest := AfterLastOccurrence("; " + cookie, Marker(key));
            var r := CookieValue(cookie, key);
            StartsWith(rest, r) && (|r| < |rest| ==> rest[|r|] == ';')
    ensures LastIndexOf("; " + cookie, Marker(key)).None? ==> CookieValue(cookie, key) == ""
  {
    var rest := AfterLastOccurrence("; " + cookie, Marker(key));
    LastPieceFollowsLastOccurrence("; " + cookie, Marker(key));
    SplitFirstPiece(rest, ';');
    if LastIndexOf("; " + cookie, Marker(key)).None? {
      assert rest[0] == ';';
    }
  }

  /** A cookie as the browser lists it. */
  datatype Cookie = Cookie(name: string, value: string)

  function CookieText(c: Cookie): string {
    c.name + "=" + c.value
  }

  /** A cookie name that `trim().startsWith(name + '=')` and the `; name=` marker recognise exactly. */
  predicate PlainName(name: string) {
    |name| > 0 && !IsWhiteSpace(name[0]) && ';' !in name && '=' !in name
  }

  predicate WellFormed(jar: seq<Cookie>) {
    forall i :: 0 <= i < |jar| ==> PlainName(jar[i].name) && ';' !in jar[i].value
  }

  /** `document.cookie` for a jar. */
  function DocumentCookie(jar: seq<Cookie>): string
  {
    if |jar| == 0 then ""
    else if |jar| == 1 then CookieText(jar[0])
    else DocumentCookie(jar[..|jar| - 1]) + "; " + CookieText(jar[|jar| - 1])
  }

  /** Every cookie of the jar preceded by "; ". */
  function Prefixed(jar: seq<Cookie>): string
  {
    if |jar| == 0 then "" else Prefixed(jar[..|jar| - 1]) + "; " + CookieText(jar[|jar| - 1])
  }

  /** The value of the cookie named `name` that comes last in the jar. */
  function LookUp(jar: seq<Cookie>, name: string): Option<string>
  {
    if |jar| == 0 then None
    else if jar[|jar| - 1].name == name then Some(jar[|jar| - 1].value)
    else LookUp(jar[..|jar| - 1], name)
  }

  function ValueOr(o: Option<string>): string {
    if o.Some? then o.value else ""
  }

  /** The item `split(';')` yields for the `i`-th cookie. */
  function Item(jar: seq<Cookie>, i: nat): string
    requires i < |jar|
  {
    (if i == 0 then "" else " ") + CookieText(jar[i])
  }

  lemma {:induction false} LookUpFindsName(jar: seq<Cookie>, name: string)
    ensures LookUp(jar, name).Some? <==> exists i :: 0 <= i < |jar| && jar[i].name == name
    decreases |jar|
  {
    if |jar| > 0 {
      var init := jar[..|jar| - 1];
      LookUpFindsName(init, name);
      if exists i :: 0 <= i < |jar| && jar[i].name == name {
        var i :| 0 <= i < |jar| && jar[i].name == name;
        if i < |init| {
          assert init[i].name == name;
        }
      }
      if exists i :: 0 <= i < |init| && init[i].name == name {
        var i :| 0 <= i < |init| && init[i].name == name;
        assert jar[i].name == name;
      }
    }
  }

  /** `name=value` starts with `key=` exactly when the names agree, since neither holds `=`. */
  lemma PrefixNamesCookie(c: Cookie, key: string)
    requires '=' !in c.name && '=' !in key
    ensures StartsWith(CookieText(c), key + "=") <==> c.name == key
  {
    var t := CookieText(c);
    if |key| < |c.name| {
      assert t[|key|] == c.name[|key|] != '=';
    } else if |c.name| < |key| {
      assert t[|c.name|] == '=' != key[|c.name|];
    } else {
      assert t[..|key| + 1] == c.name + "=";
      assert (c.name + "=")[..|key|] == c.name;
      assert (key + "=")[..|key|] == key;
    }
  }

  lemma ItemNamesCookie(c: Cookie, lead: string, key: string)
    requires PlainName(c.name) && PlainName(key) && (lead == "" || lead == " ")
    ensures StartsWith(Trim(lead + CookieText(c)), key + "=") <==> c.name == key
  {
    var t := lead + CookieText(c);
    assert (key + "=")[|key|] == '=';
    TrimmedStartsWith(t, key + "=");
    assert CookieText(c)[0] == c.name[0];
    assert TrimStart(CookieText(c)) == CookieText(c);
    if lead == " " {
      assert t[1..] == CookieText(c);
    }
    PrefixNamesCookie(c, key);
  }

  /** The items `split(';')` yields for the whole jar. */
  function Items(jar: seq<Cookie>): (r: seq<string>)
    ensures |r| == |jar| && forall i :: 0 <= i < |jar| ==> r[i] == Item(jar, i)
  {
    seq(|jar|, i requires 0 <= i < |jar| => Item(jar, i))
  }

  lemma ItemsSnoc(jar: seq<Cookie>)
    requires |jar| > 1
    ensures Items(jar) == Items(jar[..|jar| - 1]) + [" " + CookieText(jar[|jar| - 1])]
  {
    var init := jar[..|jar| - 1];
    assert forall i :: 0 <= i < |init| ==> Item(init, i) == Item(jar, i);
  }

  lemma {:induction false} SplitDocumentCookie(jar: seq<Cookie>)
    requires |jar| > 0 && WellFormed(jar)
    ensures Split(DocumentCookie(jar), ';') == Items(jar)
    decreases |jar|
  {
    var n := |jar|;
    var last := CookieText(jar[n - 1]);
    assert ';' !in last;
    if n == 1 {
      SplitWithoutSeparator(last, ';');
      assert Item(jar, 0) == "" + last == last;
      assert Items(jar) == [last];
    } else {
      var init := jar[..n - 1];
      assert WellFormed(init);
      SplitDocumentCookie(init);
      assert DocumentCookie(jar) == DocumentCookie(init) + [';'] + (" " + last);
      SplitConcat(DocumentCookie(init), ';', " " + last);
      SplitWithoutSeparator(" " + last, ';');
      ItemsSnoc(jar);
    }
  }

  /**
   * For a well-formed jar, some item of `document.cookie` starts with
   * `key=` exactly when the jar holds a cookie of that name.
   */
  lemma ItemsMatchJar(jar: seq<Cookie>, key: string)
    requires WellFormed(jar) && PlainName(key)
    ensures ItemStartsAt(Split(DocumentCookie(jar), ';'), key + "=") <==> LookUp(jar, key).Some?
  {
    LookUpFindsName(jar, key);
    var items := Split(DocumentCookie(jar), ';');
    if |jar| == 0 {
      assert items == [""];
    } else {
      SplitDocumentCookie(jar);
      forall i | 0 <= i < |jar|
        ensures StartsWith(Trim(items[i]), key + "=") <==> jar[i].name == key
      {
        ItemNamesCookie(jar[i], if i == 0 then "" else " ", key);
      }
    }
  }

  /**
   * For a well-formed jar, a cookie is reported present exactly when the
   * jar holds a cookie of that name.
   */
  lemma PresenceMatchesJar(jar: seq<Cookie>, key: string)
    requires WellFormed(jar) && PlainName(key)
    ensures CookieExists(DocumentCookie(jar), key) <==> LookUp(jar, key).Some?
  {
    ItemsMatchJar(jar, key);
    SomeItemStartsAt(Split(DocumentCookie(jar), ';'), key + "=");
  }

  /** No occurrence of a `;`-led marker starts after `p` when no `;` follows `p`. */
  lemma NoMarkerAfter(s: string, m: string, p: nat)
    requires |m| > 0 && m[0] == ';'
    requires forall k :: p < k < |s| ==> s[k] != ';'
    ensures forall j :: p < j ==> !OccursAt(s, m, j)
  {
    forall j | p < j
      ensures !OccursAt(s, m, j)
    {
      if j + |m| <= |s| {
        assert s[j..j + |m|][0] == s[j];
      }
    }
  }

  lemma MarkerBeforeCookie(p: string, t: string, key: string)
    ensures OccursAt(p + "; " + t, Marker(key), |p|) <==> StartsWith(t, key + "=")
  {
    var s := p + "; " + t;
    var k := |key| + 1;
    if k <= |t| {
      var w := s[|p|..|p| + 2 + k];
      assert w == "; " + t[..k];
      assert w[2..] == t[..k];
      assert Marker(key)[2..] == key + "=";
    }
  }

  /** An occurrence of a marker whose only `;` leads it cannot span a `;` at `p`. */
  lemma MarkerStopsAtSemicolon(s: string, m: string, p: nat, j: int)
    requires |m| > 0 && ';' !in m[1..] && p < |s| && s[p] == ';'
    requires j < p && OccursAt(s, m, j)
    ensures j + |m| <= p
  {
    assert forall i :: 1 <= i < |m| ==> m[i] == m[1..][i - 1] != ';';
    assert forall i :: j <= i < j + |m| ==> s[i] == s[j..j + |m|][i - j] == m[i - j];
  }

  /**
   * Appending `;` and text holding no marker occurrence leaves the last
   * occurrence where it was and extends the text after it.
   */
  lemma LastMarkerBeforeSemicolon(p: string, tail: string, m: string)
    requires |m| > 0 && m[0] == ';' && ';' !in m[1..]
    requires forall j :: |p| <= j ==> !OccursAt(p + [';'] + tail, m, j)
    ensures AfterLastOccurrence(p + [';'] + tail, m) == AfterLastOccurrence(p, m) + [';'] + tail
  {
    var s := p + [';'] + tail;
    forall j | j < |p|
      ensures OccursAt(s, m, j) <==> OccursAt(p, m, j)
    {
      if OccursAt(s, m, j) {
        MarkerStopsAtSemicolon(s, m, |p|, j);
        assert s[j..j + |m|] == p[j..j + |m|];
      }
      if OccursAt(p, m, j) {
        assert s[j..j + |m|] == p[j..j + |m|];
      }
    }
    match LastIndexOf(p, m)
    case Some(q) =>
      LastIndexOfIs(s, m, q);
      assert s[q + |m|..] == p[q + |m|..] + [';'] + tail;
    case None =>
      assert LastIndexOf(s, m).None?;
  }

  /** After `p`, a `;` followed by a cookie holds no further `;`. */
  lemma OnlySemicolonLeadsCookie(p: string, c: Cookie)
    requires PlainName(c.name) && ';' !in c.value
    ensures var s := p + [';'] + (" " + CookieText(c));
            forall k :: |p| < k < |s| ==> s[k] != ';'
  {
    var tail := " " + CookieText(c);
    var s := p + [';'] + tail;
    assert ';' !in tail;
    assert forall k :: |p| < k < |s| ==> s[k] == tail[k - |p| - 1];
  }

  /** When the last cookie has the name looked up, the text after the last marker is its value. */
  lemma LastCookieIsRead(p: string, c: Cookie, key: string)
    requires PlainName(c.name) && ';' !in c.value && c.name == key
    ensures AfterLastOccurrence(p + [';'] + (" " + CookieText(c)), Marker(key)) == c.value
  {
    var m := Marker(key);
    var s := p + [';'] + (" " + CookieText(c));
    assert s == p + m + c.value;
    assert s[|p|..|p| + |m|] == m;
    OnlySemicolonLeadsCookie(p, c);
    NoMarkerAfter(s, m, |p|);
    LastIndexOfIs(s, m, |p|);
    assert s[|p| + |m|..] == c.value;
  }

  /** When the last cookie has another name, the value is read from the cookies before it. */
  lemma OtherCookieIsSkipped(p: string, c: Cookie, key: string)
    requires PlainName(c.name) && ';' !in c.value && PlainName(key) && c.name != key
    ensures Split(AfterLastOccurrence(p + [';'] + (" " + CookieText(c)), Marker(key)), ';')[0]
            == Split(AfterLastOccurrence(p, Marker(key)), ';')[0]
  {
    var m := Marker(key);
    var tail := " " + CookieText(c);
    var s := p + [';'] + tail;
    assert s == p + "; " + CookieText(c);
    MarkerBeforeCookie(p, CookieText(c), key);
    PrefixNamesCookie(c, key);
    OnlySemicolonLeadsCookie(p, c);
    NoMarkerAfter(s, m, |p|);
    LastMarkerBeforeSemicolon(p, tail, m);
    SplitConcat(AfterLastOccurrence(p, m), ';', tail);
  }

  lemma {:induction false} ValueInPrefixed(jar: seq<Cookie>, key: string)
    requires WellFormed(jar) && PlainName(key)
    ensures Split(AfterLastOccurrence(Prefixed(jar), Marker(key)), ';')[0] == ValueOr(LookUp(jar, key))
    decreases |jar|
  {
    if |jar| > 0 {
      var n := |jar|;
      var init, c := jar[..n - 1], jar[n - 1];
      var p := Prefixed(init);
      assert Prefixed(jar) == p + [';'] + (" " + CookieText(c));
      if c.name == key {
        LastCookieIsRead(p, c, key);
        SplitWithoutSeparator(c.value, ';');
      } else {
        assert WellFormed(init);
        ValueInPrefixed(init, key);
        OtherCookieIsSkipped(p, c, key);
      }
    }
  }

  lemma {:induction false} PrefixedIsMarkedCookie(jar: seq<Cookie>)
    requires |jar| > 0
    ensures Prefixed(jar) == "; " + DocumentCookie(jar)
    decreases |jar|
  {
    if |jar| > 1 {
      PrefixedIsMarkedCookie(jar[..|jar| - 1]);
    }
  }

  /**
   * For a well-formed jar, the page reads as the value of a cookie the value
   * of the LAST cookie of that name, and the empty string when there is none.
   */
  lemma ValueMatchesJar(jar: seq<Cookie>, key: string)
    requires WellFormed(jar) && PlainName(key)
    ensures CookieValue(DocumentCookie(jar), key) == ValueOr(LookUp(jar, key))
  {
    ValueFollowsLastMarker(DocumentCookie(jar), key);
    if |jar| > 0 {
      PrefixedIsMarkedCookie(jar);
      ValueInPrefixed(jar, key);
    }
  }

  /**
   * A cookie listed last in `document.cookie` is the one that is read back,
   * whatever the cookies before it.
   */
  lemma ReadBackLastWrite(jar: seq<Cookie>, c: Cookie)
    requires WellFormed(jar + [c])
    ensures CookieExists(DocumentCookie(jar + [c]), c.name)
    ensures CookieValue(DocumentCookie(jar + [c]), c.name) == c.value
  {
    var jar' := jar + [c];
    assert jar'[|jar'| - 1] == c;
    PresenceMatchesJar(jar', c.name);
    ValueMatchesJar(jar', c.name);
  }

  /** `pathname.split('/')[index]`; `None` stands for `undefined` past the last segment. */
  function UrlSegment(pathname: string, index: nat): (r: Option<string>)
    ensures r.Some? <==> index < |Split(pathname, '/')|
    ensures r.Some? ==> '/' !in r.value
  {
    var parts := Split(pathname, '/');
    if index < |parts| then Some(parts[index]) else None
  }

  /** The account page's address for `u` yields `u` as its `:userName` parameter. */
  lemma AccountPathSegment(u: string)
    requires '/' !in u
    ensures UrlSegment(ACCOUNT_PATH + u, 2) == Some(u)
  {
    var parts := ["", "account", u];
    assert parts[1..][1..] == [u];
    assert Join(parts[1..], '/') == "account/" + u;
    assert Join(parts, '/') == ACCOUNT_PATH + u;
    SplitJoin(parts, '/');
  }

  /** Both cookies of a signed-in user are present, as `getAccountDetails` and `verifyURLAndCookies` test it. */
  predicate SignedIn(cookie: string) {
    CookieExists(cookie, DISPLAY_NAME) && CookieExists(cookie, USER_NAME)
  }

  /**
   * For a browser holding `jar`, the page counts the user as signed in
   * exactly when both cookies are in the jar, and then looks up the last
   * `userName` cookie's value.
   */
  lemma SignedInReadsJar(jar: seq<Cookie>)
    requires WellFormed(jar)
    ensures SignedIn(DocumentCookie(jar)) <==> LookUp(jar, DISPLAY_NAME).Some? && LookUp(jar, USER_NAME).Some?
    ensures SignedIn(DocumentCookie(jar)) ==> CookieValue(DocumentCookie(jar), USER_NAME) == LookUp(jar, USER_NAME).value
  {
    assert PlainName(DISPLAY_NAME) && PlainName(USER_NAME);
    PresenceMatchesJar(jar, DISPLAY_NAME);
    PresenceMatchesJar(jar, USER_NAME);
    ValueMatchesJar(jar, USER_NAME);
  }

  /**
   * `verifyURLAndCookies()` over the cookie string and the address it reads.
   * It fails without both cookies, and a cookie user name holding `/` can
   * never be the address's single segment.
   */
  predicate VerifyUrlAndCookies(cookie: string, pathname: string)
    ensures VerifyUrlAndCookies(cookie, pathname) ==> SignedIn(cookie)
    ensures '/' in CookieValue(cookie, USER_NAME) ==> !VerifyUrlAndCookies(cookie, pathname)
  {
    if SignedIn(cookie) then
      UrlSegment(pathname, 2) == Some(CookieValue(cookie, USER_NAME))
    else
      false
  }

  /**
   * On `/account/u` the front-end check passes exactly when the jar holds a
   * `displayName` cookie and its last `userName` cookie is `u`.
   */
  lemma OnlyTheOwnerPasses(jar: seq<Cookie>, u: string)
    requires WellFormed(jar) && '/' !in u
    ensures VerifyUrlAndCookies(DocumentCookie(jar), ACCOUNT_PATH + u)
            <==> LookUp(jar, DISPLAY_NAME).Some? && LookUp(jar, USER_NAME) == Some(u)
  {
    SignedInReadsJar(jar);
    AccountPathSegment(u);
  }
}
