/** The cookie jar of a client context and the two conversions around it:
    the outgoing `cookie` header built from the jar, and the fold of a
    response's `set-cookie` strings back into the jar.

    A jar is the JavaScript object `ctx.cookieJar`: its keys are unique and
    `for…in` / `Object.keys` visit them in insertion order, so it is modelled
    as a sequence of entries with distinct names, oldest first.  A value is
    the text after the first '=' of a `set-cookie` string, or undefined
    (`None`) when there was no '='. */
module CookieCodec {
  import opened Js

  datatype Cookie = Cookie(name: string, value: Option<string>)

  /** What a read of the jar by name finds: a JavaScript `null` for "no such
      cookie", or the stored value (itself possibly undefined). */
  datatype CookieLookup = NotFound | Found(value: Option<string>)

  /** The jar's keys, in key order. */
  function Names(entries: seq<Cookie>): seq<string> {
    seq(|entries|, i requires 0 <= i < |entries| => entries[i].name)
  }

  predicate DistinctNames(entries: seq<Cookie>) {
    forall i, j :: 0 <= i < j < |entries| ==> entries[i].name != entries[j].name
  }

  type Jar = entries: seq<Cookie> | DistinctNames(entries) witness []

  /** Position of the entry named `name`, or `|entries|` when there is none. */
  function KeyIndex(entries: seq<Cookie>, name: string): (i: nat)
    ensures i <= |entries|
    ensures i < |entries| ==> entries[i].name == name
    ensures forall k :: 0 <= k < i ==> entries[k].name != name
  {
    if entries == [] then 0
    else if entries[0].name == name then 0
    else 1 + KeyIndex(entries[1..], name)
  }

  /** `jar[name]`: the value stored under `name`, if that key exists. */
  function Lookup(jar: Jar, name: string): (r: CookieLookup)
    ensures r.NotFound? <==> forall k :: 0 <= k < |jar| ==> jar[k].name != name
    ensures forall k :: 0 <= k < |jar| && jar[k].name == name ==> r == Found(jar[k].value)
  {
    var i := KeyIndex(jar, name);
    if i < |jar| then Found(jar[i].value) else NotFound
  }

  /** `jar[c.name] = c.value`: overwrites the value in place when the name is
      already a key, and appends a new key otherwise. */
  function Store(jar: Jar, c: Cookie): (r: Jar)
    ensures Lookup(r, c.name) == Found(c.value)
    ensures forall n :: n != c.name ==> Lookup(r, n) == Lookup(jar, n)
  {
    var i := KeyIndex(jar, c.name);
    if i < |jar| then
      var r := jar[i := c];
      assert r[i] == c;
      assert forall k :: 0 <= k < |jar| && k != i ==> r[k] == jar[k];
      r
    else
      var r := jar + [c];
      assert forall k :: 0 <= k < |jar| ==> jar[k].name != c.name;
      assert r[|jar|] == c;
      assert forall k :: 0 <= k < |jar| ==> r[k] == jar[k];
      r
  }

  /** Storing keeps the key order: an existing key stays where it is, a new
      key goes last. */
  lemma StoreNames(jar: Jar, c: Cookie)
    ensures Names(Store(jar, c)) == if c.name in Names(jar) then Names(jar) else Names(jar) + [c.name]
  {
    var i := KeyIndex(jar, c.name);
    if i < |jar| {
      assert Names(jar)[i] == c.name;
      assert Names(jar[i := c]) == Names(jar);
    } else {
      assert c.name !in Names(jar) by {
        forall k | 0 <= k < |jar| ensures Names(jar)[k] != c.name { }
      }
      assert Names(jar + [c]) == Names(jar) + [c.name];
    }
  }

  // ---------------------------------------------------------------------
  // Parsing one set-cookie string

  /** Position of the first `c` in `s`, or `|s|` when there is none. */
  function IndexOf(s: string, c: char): (i: nat)
    ensures i <= |s|
    ensures i < |s| ==> s[i] == c
    ensures forall k :: 0 <= k < i ==> s[k] != c
  {
    if s == [] then 0
    else if s[0] == c then 0
    else 1 + IndexOf(s[1..], c)
  }

  lemma IndexOfAt(s: string, c: char, n: nat)
    requires n <= |s| && c !in s[..n] && (n < |s| ==> s[n] == c)
    ensures IndexOf(s, c) == n
  {
  }

  /** The characters the regular-expression `.` does not match. */
  predicate IsLineTerminator(ch: char) {
    ch == '\n' || ch == '\r' || ch == '\U{2028}' || ch == '\U{2029}'
  }

  /** When `/^([^;]+)(?:;.*)$/` matches: the first ';' is not the first
      character, and nothing after it is a line terminator. */
  predicate Matches(header: string) {
    exists i :: 0 < i < |header| && header[i] == ';' &&
      (forall k :: 0 <= k < i ==> header[k] != ';') &&
      (forall k :: i < k < |header| ==> !IsLineTerminator(header[k]))
  }

  /** Text that can be neither split on '=' nor cut at ';'. */
  predicate Plain(s: string) {
    ';' !in s && '=' !in s
  }

  /** One `set-cookie` string: the text before the first ';' is split on '=';
      the name is the first piece, the value the second (undefined when there
      is no '=').  A string the pattern does not match gives nothing. */
  function ParseSetCookie(header: string): Option<Cookie> {
    var semi := IndexOf(header, ';');
    if semi == 0 || semi == |header| then None
    else if exists k :: semi < k < |header| && IsLineTerminator(header[k]) then None
    else
      var prefix := header[..semi];
      var eq := IndexOf(prefix, '=');
      if eq == |prefix| then
        Some(Cookie(prefix, None))
      else
        var rest := prefix[eq + 1..];
        Some(Cookie(prefix[..eq], Some(rest[..IndexOf(rest, '=')])))
  }

  /** The parser succeeds exactly when the pattern matches. */
  lemma ParsedIffMatches(header: string)
    ensures ParseSetCookie(header).Some? <==> Matches(header)
  {
    var semi := IndexOf(header, ';');
    if Matches(header) {
      var i :| 0 < i < |header| && header[i] == ';' &&
        (forall k :: 0 <= k < i ==> header[k] != ';') &&
        (forall k :: i < k < |header| ==> !IsLineTerminator(header[k]));
      assert ';' !in header[..i];
      IndexOfAt(header, ';', i);
    } else if 0 < semi < |header| {
      assert !forall k :: semi < k < |header| ==> !IsLineTerminator(header[k]);
    }
  }

  /** What a successful parse extracts, stated without its search positions:
      name and value are free of '=' and ';', and the header starts with
      `name;` (no value) or with `name=value` followed by '=' or ';'. */
  lemma ParsedShape(header: string)
    requires ParseSetCookie(header).Some?
    ensures var c := ParseSetCookie(header).value;
      Plain(c.name) && (c.value.Some? ==> Plain(c.value.value))
    ensures var c := ParseSetCookie(header).value;
      c.value.None? ==> |c.name| < |header| && header[..|c.name| + 1] == c.name + ";"
    ensures var c := ParseSetCookie(header).value;
      c.value.Some? ==>
        var p := c.name + "=" + c.value.value;
        |p| < |header| && header[..|p|] == p && (header[|p|] == '=' || header[|p|] == ';')
  {
    var semi := IndexOf(header, ';');
    var prefix := header[..semi];
    assert ';' !in prefix;
    var eq := IndexOf(prefix, '=');
    if eq == |prefix| {
      assert header[..semi + 1] == prefix + ";";
    } else {
      var rest := prefix[eq + 1..];
      var end := IndexOf(rest, '=');
      assert ParseSetCookie(header).value == Cookie(prefix[..eq], Some(rest[..end]));
      assert ';' !in rest;
      assert header[..eq + 1 + end] == prefix[..eq] + "=" + rest[..end];
      if end < |rest| {
        assert header[eq + 1 + end] == rest[end];
      }
    }
  }

  // ---------------------------------------------------------------------
  // Folding a set-cookie list into the jar (extractCookies)

  /** Each `set-cookie` string parsed on its own, in list order. */
  function ParseAll(headers: seq<string>): seq<Option<Cookie>> {
    seq(|headers|, i requires 0 <= i < |headers| => ParseSetCookie(headers[i]))
  }

  /** A parse result that writes the key `name`. */
  predicate Writes(p: Option<Cookie>, name: string) {
    p.Some? && p.value.name == name
  }

  /** The jar after the parse results, in order, have been stored into it;
      strings that did not match are skipped. */
  function StoreAll(jar: Jar, parsed: seq<Option<Cookie>>): Jar
    decreases |parsed|
  {
    if parsed == [] then jar
    else
      var before := StoreAll(jar, parsed[..|parsed| - 1]);
      match parsed[|parsed| - 1]
      case None => before
      case Some(c) => Store(before, c)
  }

  /** extractCookies' fold over the `set-cookie` list of one response. */
  function ApplySetCookies(jar: Jar, headers: seq<string>): Jar {
    StoreAll(jar, ParseAll(headers))
  }

  /** Folding one list and then another is folding their concatenation, so
      the lemmas about a single fold hold across every response a context
      has seen. */
  lemma {:induction false} StoreAllAppend(jar: Jar, p: seq<Option<Cookie>>, q: seq<Option<Cookie>>)
    ensures StoreAll(StoreAll(jar, p), q) == StoreAll(jar, p + q)
    decreases |q|
  {
    if q == [] {
      assert p + q == p;
    } else {
      var last := |q| - 1;
      StoreAllAppend(jar, p, q[..last]);
      assert (p + q)[..|p + q| - 1] == p + q[..last];
      assert (p + q)[|p + q| - 1] == q[last];
    }
  }

  /** Parsing two lists of `set-cookie` strings one after the other is
      parsing their concatenation. */
  lemma ParseAllAppend(a: seq<string>, b: seq<string>)
    ensures ParseAll(a + b) == ParseAll(a) + ParseAll(b)
  {
  }

  /** A later `set-cookie` for a name overwrites an earlier one: the value the
      jar ends with is the one from the last string that names it. */
  lemma {:induction false} LastWriteWins(jar: Jar, parsed: seq<Option<Cookie>>, k: nat)
    requires k < |parsed| && parsed[k].Some?
    requires forall j :: k < j < |parsed| ==> !Writes(parsed[j], parsed[k].value.name)
    ensures Lookup(StoreAll(jar, parsed), parsed[k].value.name) == Found(parsed[k].value.value)
    decreases |parsed|
  {
    var last := |parsed| - 1;
    var c := parsed[k].value;
    var before := StoreAll(jar, parsed[..last]);
    assert StoreAll(jar, parsed) == if parsed[last].None? then before else Store(before, parsed[last].value);
    if k < last {
      var init := parsed[..last];
      assert init[k] == parsed[k];
      assert forall j :: k < j < |init| ==> init[j] == parsed[j];
      LastWriteWins(jar, init, k);
      assert !Writes(parsed[last], c.name);
    } else {
      assert parsed[last] == Some(c);
    }
  }

  /** Entries whose name no `set-cookie` string mentions are untouched. */
  lemma {:induction false} OtherNamesUntouched(jar: Jar, parsed: seq<Option<Cookie>>, name: string)
    requires forall j :: 0 <= j < |parsed| ==> !Writes(parsed[j], name)
    ensures Lookup(StoreAll(jar, parsed), name) == Lookup(jar, name)
    decreases |parsed|
  {
    if parsed != [] {
      var last := |parsed| - 1;
      OtherNamesUntouched(jar, parsed[..last], name);
      assert !Writes(parsed[last], name);
    }
  }

  /** Existing keys keep their place: the old key order is a prefix of the
      new one. */
  lemma {:induction false} StoreAllKeepsOrder(jar: Jar, parsed: seq<Option<Cookie>>)
    ensures Names(jar) <= Names(StoreAll(jar, parsed))
    decreases |parsed|
  {
    if parsed != [] {
      var last := |parsed| - 1;
      StoreAllKeepsOrder(jar, parsed[..last]);
      if parsed[last].Some? {
        StoreNames(StoreAll(jar, parsed[..last]), parsed[last].value);
      }
    }
  }

  /** A key is in the jar afterwards exactly when it was there before or some
      string names it. */
  lemma {:induction false} StoreAllKeys(jar: Jar, parsed: seq<Option<Cookie>>, n: string)
    ensures n in Names(StoreAll(jar, parsed)) <==> n in Names(jar) || WrittenBy(parsed, n)
    decreases |parsed|
  {
    if parsed != [] {
      var last := |parsed| - 1;
      var init := parsed[..last];
      var before := StoreAll(jar, init);
      StoreAllKeys(jar, init, n);
      WrittenBySplit(parsed, n);
      if parsed[last].Some? {
        StoreNames(before, parsed[last].value);
      }
    }
  }

  /** Some result of the list writes `name`. */
  predicate WrittenBy(parsed: seq<Option<Cookie>>, name: string) {
    exists j :: 0 <= j < |parsed| && Writes(parsed[j], name)
  }

  /** A non-empty list writes `name` exactly when all but its last result do,
      or its last result does. */
  lemma WrittenBySplit(parsed: seq<Option<Cookie>>, name: string)
    requires parsed != []
    ensures WrittenBy(parsed, name) <==>
      WrittenBy(parsed[..|parsed| - 1], name) || Writes(parsed[|parsed| - 1], name)
  {
    var init := parsed[..|parsed| - 1];
    if WrittenBy(parsed, name) {
      var j :| 0 <= j < |parsed| && Writes(parsed[j], name);
      if j < |parsed| - 1 { assert init[j] == parsed[j]; }
    }
    if WrittenBy(init, name) {
      var j :| 0 <= j < |init| && Writes(init[j], name);
      assert parsed[j] == init[j];
    }
  }

  // ---------------------------------------------------------------------
  // The outgoing cookie header (injectCookies)

  /** JavaScript string concatenation renders an undefined value as "undefined". */
  function Render(v: Option<string>): string {
    match v
    case Some(s) => s
    case None => "undefined"
  }

  function Pair(c: Cookie): string {
    c.name + "=" + Render(c.value)
  }

  /** The `cookie` header text: every entry's `name=value`, in jar order,
      with no separator between entries. */
  function CookieLine(entries: seq<Cookie>): string {
    if entries == [] then "" else Pair(entries[0]) + CookieLine(entries[1..])
  }

  lemma {:induction false} CookieLineAppend(a: seq<Cookie>, b: seq<Cookie>)
    ensures CookieLine(a + b) == CookieLine(a) + CookieLine(b)
  {
    if a != [] {
      assert (a + b)[0] == a[0];
      assert (a + b)[1..] == a[1..] + b;
      CookieLineAppend(a[1..], b);
    } else {
      assert a + b == b;
    }
  }

  /** With no separator the header does not determine the jar: two entries
      `a=1`, `b=2` and the single entry `a=1b=2` give the same text. */
  lemma CookieLineAmbiguous()
    ensures CookieLine([Cookie("a", Some("1")), Cookie("b", Some("2"))])
         == CookieLine([Cookie("a", Some("1b=2"))])
  {
    assert CookieLine([Cookie("b", Some("2"))]) == "b=2";
  }

  // ---------------------------------------------------------------------
  // Echoing a jar back as set-cookie strings

  /** An entry a `set-cookie` string can carry: neither part can be split on
      '=' or cut at ';', and a name without a value is not empty. */
  predicate Echoable(c: Cookie) {
    Plain(c.name) && (c.value.Some? ==> Plain(c.value.value)) && (c.value.None? ==> c.name != "")
  }

  /** The `set-cookie` string a server would send to set `c`. */
  function SetCookieFor(c: Cookie): string {
    match c.value
    case Some(v) => c.name + "=" + v + ";"
    case None => c.name + ";"
  }

  /** One `set-cookie` string per entry, in jar order. */
  function Echo(entries: seq<Cookie>): seq<string> {
    seq(|entries|, i requires 0 <= i < |entries| => SetCookieFor(entries[i]))
  }

  lemma ParseSetCookieFor(c: Cookie)
    requires Echoable(c)
    ensures ParseSetCookie(SetCookieFor(c)) == Some(c)
  {
    var h := SetCookieFor(c);
    var body := h[..|h| - 1];
    assert body == if c.value.Some? then c.name + "=" + c.value.value else c.name;
    assert ';' !in body;
    IndexOfAt(h, ';', |body|);
    if c.value.Some? {
      assert body[..|c.name|] == c.name;
      IndexOfAt(body, '=', |c.name|);
      assert body[|c.name| + 1..] == c.value.value;
      IndexOfAt(c.value.value, '=', |c.value.value|);
      assert ParseSetCookie(h) == Some(Cookie(body[..|c.name|], Some(body[|c.name| + 1..][..|c.value.value|])));
      assert body[|c.name| + 1..][..|c.value.value|] == c.value.value;
    } else {
      assert '=' !in body;
      IndexOfAt(body, '=', |body|);
    }
  }

  /** Every entry the parser produces can be echoed back. */
  lemma ParsedIsEchoable(header: string)
    requires ParseSetCookie(header).Some?
    ensures Echoable(ParseSetCookie(header).value)
  {
    ParsedIffMatches(header);
    ParsedShape(header);
    var c := ParseSetCookie(header).value;
    if c.value.None? {
      var i :| 0 < i < |header| && header[i] == ';' &&
        (forall k :: 0 <= k < i ==> header[k] != ';') &&
        (forall k :: i < k < |header| ==> !IsLineTerminator(header[k]));
      assert header[|c.name|] == ';';
    }
  }

  /** Storing a name the jar does not hold appends it. */
  lemma StoreNewName(jar: Jar, c: Cookie)
    requires forall k :: 0 <= k < |jar| ==> jar[k].name != c.name
    ensures Store(jar, c) == jar + [c]
  {
    assert KeyIndex(jar, c.name) == |jar|;
  }

  /** Storing a jar's own entries, in order, into an empty jar rebuilds it. */
  lemma {:induction false} StoreAllEntries(jar: Jar)
    ensures StoreAll([], seq(|jar|, i requires 0 <= i < |jar| => Some(jar[i]))) == jar
    decreases |jar|
  {
    var entries := seq(|jar|, i requires 0 <= i < |jar| => Some(jar[i]));
    if jar != [] {
      var last := |jar| - 1;
      var c := jar[last];
      var init: Jar := jar[..last];
      assert entries[..last] == seq(|init|, i requires 0 <= i < |init| => Some(init[i]));
      StoreAllEntries(init);
      assert StoreAll([], entries) == Store(init, c) by {
        assert entries[last] == Some(c);
      }
      StoreNewName(init, c);
      assert jar == init + [c];
    }
  }

  /** A jar sent back as one `set-cookie` string per entry, in order, and
      folded into an empty jar, is the same jar again. */
  lemma EchoRoundTrip(jar: Jar)
    requires forall i :: 0 <= i < |jar| ==> Echoable(jar[i])
    ensures ApplySetCookies([], Echo(jar)) == jar
  {
    forall i | 0 <= i < |jar| ensures ParseSetCookie(Echo(jar)[i]) == Some(jar[i]) {
      ParseSetCookieFor(jar[i]);
    }
    assert ParseAll(Echo(jar)) == seq(|jar|, i requires 0 <= i < |jar| => Some(jar[i]));
    StoreAllEntries(jar);
  }

  // ---------------------------------------------------------------------
  // Looking a cookie up by a predicate on its name (getCookie)

  /** The value of the first entry, in jar order, whose name satisfies
      `which`; `NotFound` when none does. */
  function FirstMatch(entries: seq<Cookie>, which: string -> bool): (r: CookieLookup)
    ensures r.NotFound? <==> forall i :: 0 <= i < |entries| ==> !which(entries[i].name)
    ensures r.Found? ==>
      exists i :: 0 <= i < |entries| && which(entries[i].name) && r.value == entries[i].value &&
        forall j :: 0 <= j < i ==> !which(entries[j].name)
  {
    if entries == [] then NotFound
    else if which(entries[0].name) then Found(entries[0].value)
    else
      FirstMatch(entries[1..], which)
  }

  /** Searching by an exact name is reading the jar by that key. */
  lemma FirstMatchExactName(jar: Jar, name: string)
    ensures FirstMatch(jar, n => n == name) == Lookup(jar, name)
  {
    var r := FirstMatch(jar, n => n == name);
    if r.Found? {
      var i :| 0 <= i < |jar| && jar[i].name == name && r.value == jar[i].value;
      assert Cookie(name, r.value) == jar[i];
    } else {
      assert name !in Names(jar);
    }
  }
}
