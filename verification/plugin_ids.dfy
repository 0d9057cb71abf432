/** Plugin-id naming (`pluginResolution.js`): the anchored regular expressions `pluginRE`,
    `scopeRE` and `officialRE` as explicit prefix matchers, and the functions built on
    them. A plugin's full id is its npm package name; its short id is what remains after
    the plugin prefix. */
module PluginIds {
  import opened Wrappers

  /** A character of the class `\w` (no Unicode flag): ASCII letters, digits, `_`. */
  predicate IsWordChar(c: char) {
    ('a' <= c <= 'z') || ('A' <= c <= 'Z') || ('0' <= c <= '9') || c == '_'
  }

  /** A character of the class `[\w-]`. */
  predicate IsScopeChar(c: char) {
    IsWordChar(c) || c == '-'
  }

  /** A string matched by `[\w-]+`. */
  predicate IsScopeWord(w: string) {
    |w| >= 1 && forall i :: 0 <= i < |w| ==> IsScopeChar(w[i])
  }

  /** The language of the scope part `[\w-]+(\.)?[\w-]+`, read off the pattern: two
      words, with or without a dot between them. */
  ghost predicate ScopeShaped(s: string) {
    exists a, b :: Joined(s, a, b)
  }

  /** `s` is the word `a` followed by the word `b`, with or without a dot between. */
  predicate Joined(s: string, a: string, b: string) {
    IsScopeWord(a) && IsScopeWord(b) && (s == a + b || s == a + "." + b)
  }

  /** The same language, checked character by character: at least two characters from
      `[\w-.]`, at most one dot, and the dot neither first nor last. */
  predicate ValidScope(s: string) {
    && |s| >= 2
    && s[0] != '.' && s[|s| - 1] != '.'
    && (forall i :: 0 <= i < |s| ==> IsScopeChar(s[i]) || s[i] == '.')
    && (forall i, j :: 0 <= i < j < |s| && s[i] == '.' ==> s[j] != '.')
  }

  /** The character check accepts exactly the scope pattern's language. */
  lemma ValidScopeIsShape(s: string)
    ensures ValidScope(s) <==> ScopeShaped(s)
  {
    if ValidScope(s) {
      ValidScopeShaped(s);
    }
    if ScopeShaped(s) {
      var a, b :| Joined(s, a, b);
      ShapedScopeValid(s, a, b);
    }
  }

  lemma ValidScopeShaped(s: string)
    requires ValidScope(s)
    ensures ScopeShaped(s)
  {
    if d :| 0 <= d < |s| && s[d] == '.' {
      var a, b := s[..d], s[d + 1..];
      assert s == a + "." + b;
      forall i | 0 <= i < |a|
        ensures IsScopeChar(a[i])
      {
        assert a[i] == s[i];
      }
      forall i | 0 <= i < |b|
        ensures IsScopeChar(b[i])
      {
        assert b[i] == s[d + 1 + i];
      }
      assert Joined(s, a, b);
    } else {
      var a, b := s[..1], s[1..];
      assert s == a + b;
      forall i | 0 <= i < |b|
        ensures IsScopeChar(b[i])
      {
        assert b[i] == s[1 + i];
      }
      assert Joined(s, a, b);
    }
  }

  lemma ShapedScopeValid(s: string, a: string, b: string)
    requires Joined(s, a, b)
    ensures ValidScope(s)
  {
    if s == a + b {
      forall i | 0 <= i < |s|
        ensures IsScopeChar(s[i])
      {
        if i < |a| { assert s[i] == a[i]; } else { assert s[i] == b[i - |a|]; }
      }
    } else {
      forall i | 0 <= i < |s| && i != |a|
        ensures IsScopeChar(s[i])
      {
        if i < |a| { assert s[i] == a[i]; } else { assert s[i] == b[i - |a| - 1]; }
      }
      assert s[|a|] == '.';
      assert s[|s| - 1] == b[|b| - 1];
    }
  }

  /** `p` is a prefix of `s`. */
  predicate StartsWith(s: string, p: string) {
    |p| <= |s| && s[..|p|] == p
  }

  /** The position of the first `/` at or after `from`, or `|s|` when there is none. */
  function SlashFrom(s: string, from: nat): (r: nat)
    requires from <= |s|
    ensures from <= r <= |s|
    ensures r < |s| ==> s[r] == '/'
    ensures forall i :: from <= i < r ==> s[i] != '/'
    decreases |s| - from
  {
    if from == |s| || s[from] == '/' then from else SlashFrom(s, from + 1)
  }

  /** `scopeRE` (`^@[\w-]+(\.)?[\w-]+\/`): the length of the matched `@scope/` prefix, if
      any. The scope cannot hold a `/`, so the match can only end at the first one. */
  function ScopeLength(id: string): (r: Option<nat>)
    ensures r.Some? ==> 3 < r.value <= |id|
  {
    if |id| > 0 && id[0] == '@' then
      var j := SlashFrom(id, 1);
      if j < |id| && ValidScope(id[1..j]) then Some(j + 1) else None
    else None
  }

  /** A string in the language of `scopeRE`. */
  ghost predicate ScopePrefix(p: string) {
    exists s :: ValidScope(s) && p == "@" + s + "/"
  }

  /** `ScopeLength` finds exactly the prefixes in the language of `scopeRE`. */
  lemma ScopeLengthMatches(id: string, n: nat)
    ensures ScopeLength(id) == Some(n) <==> n <= |id| && ScopePrefix(id[..n])
  {
    if ScopeLength(id) == Some(n) {
      assert id[..n] == "@" + id[1..n - 1] + "/";
    }
    if n <= |id| && ScopePrefix(id[..n]) {
      var s :| ValidScope(s) && id[..n] == "@" + s + "/";
      assert n == |s| + 2;
      forall i | 1 <= i < n - 1
        ensures id[i] != '/'
      {
        assert id[i] == id[..n][i] == s[i - 1];
      }
      assert id[n - 1] == id[..n][n - 1];
      assert SlashFrom(id, 1) == n - 1;
      forall i | 0 <= i < |s|
        ensures id[1..n - 1][i] == s[i]
      {
        assert id[1 + i] == id[..n][1 + i];
      }
      assert id[1..n - 1] == s;
    }
  }

  /** `@vue/cli-plugin-`, the prefix of official plugins. */
  const OfficialPrefix: string := "@vue/cli-plugin-"

  /** `vue-cli-plugin-`, the prefix of unscoped plugins (and of scoped ones after the
      scope). */
  const CommunityPrefix: string := "vue-cli-plugin-"

  /** `pluginRE` (`^(@vue\/|vue-|@[\w-]+(\.)?[\w-]+\/vue-)cli-plugin-`): the length of the
      matched plugin prefix, if any. The three alternatives exclude each other. */
  function PluginPrefixLength(id: string): (r: Option<nat>)
    ensures r.Some? ==> 15 <= r.value <= |id|
  {
    if StartsWith(id, OfficialPrefix) then Some(|OfficialPrefix|)
    else if StartsWith(id, CommunityPrefix) then Some(|CommunityPrefix|)
    else
      match ScopeLength(id)
      case Some(n) => if StartsWith(id[n..], CommunityPrefix) then Some(n + |CommunityPrefix|) else None
      case None => None
  }

  /** A string in the language of `pluginRE`. */
  ghost predicate PluginREPrefix(p: string) {
    || p == OfficialPrefix
    || p == CommunityPrefix
    || exists s :: ValidScope(s) && p == "@" + s + "/" + CommunityPrefix
  }

  /** A scope prefix followed by a slash never looks like the official prefix: the scope
      would have to be `vue`, and then `vue-` would have to read `cli-`. */
  lemma ScopedNotOfficial(id: string, s: string)
    requires ValidScope(s) && StartsWith(id, "@" + s + "/" + CommunityPrefix)
    ensures !StartsWith(id, OfficialPrefix)
  {
    var pre := "@" + s + "/" + CommunityPrefix;
    var n := |s| + 1;
    assert id[n] == pre[n] == '/';
    if n == 3 {
      assert id[3] != OfficialPrefix[3];
    } else if n == 4 {
      assert id[5] == pre[5] == 'v';
      assert id[5] != OfficialPrefix[5];
    } else {
      assert id[4] == pre[4] == s[3];
      assert id[4] != OfficialPrefix[4];
    }
  }

  /** The prefix found for an id is in the language of `pluginRE`. */
  lemma PrefixLengthSound(id: string)
    requires PluginPrefixLength(id).Some?
    ensures PluginREPrefix(id[..PluginPrefixLength(id).value])
  {
    if !StartsWith(id, OfficialPrefix) && !StartsWith(id, CommunityPrefix) {
      var n := PluginPrefixLength(id).value;
      var m := ScopeLength(id).value;
      ScopeLengthMatches(id, m);
      var s :| ValidScope(s) && id[..m] == "@" + s + "/";
      assert id[..n] == id[..m] + id[m..][..|CommunityPrefix|];
      assert id[..n] == "@" + s + "/" + CommunityPrefix;
    }
  }

  /** An id starting with `vue-cli-plugin-` has that prefix. */
  lemma CommunityComplete(id: string)
    requires StartsWith(id, CommunityPrefix)
    ensures PluginPrefixLength(id) == Some(|CommunityPrefix|)
  {
    assert id[0] == CommunityPrefix[0];
  }

  /** An id starting with `@scope/vue-cli-plugin-` has that prefix. */
  lemma ScopedComplete(id: string, s: string)
    requires ValidScope(s) && StartsWith(id, "@" + s + "/" + CommunityPrefix)
    ensures PluginPrefixLength(id) == Some(|s| + 2 + |CommunityPrefix|)
  {
    var pre := "@" + s + "/" + CommunityPrefix;
    ScopedNotOfficial(id, s);
    assert id[0] == pre[0] == '@';
    var m := |s| + 2;
    assert id[..m] == pre[..m] == "@" + s + "/";
    ScopeLengthMatches(id, m);
    assert id[m..][..|CommunityPrefix|] == pre[m..] == CommunityPrefix;
  }

  /** `PluginPrefixLength` finds exactly the prefixes in the language of `pluginRE`; in
      particular an id has at most one plugin prefix. */
  lemma PluginPrefixLengthMatches(id: string, n: nat)
    ensures PluginPrefixLength(id) == Some(n) <==> n <= |id| && PluginREPrefix(id[..n])
  {
    if PluginPrefixLength(id) == Some(n) {
      PrefixLengthSound(id);
    }
    if n <= |id| && PluginREPrefix(id[..n]) {
      if id[..n] == OfficialPrefix {
      } else if id[..n] == CommunityPrefix {
        CommunityComplete(id);
      } else {
        var s :| ValidScope(s) && id[..n] == "@" + s + "/" + CommunityPrefix;
        ScopedComplete(id, s);
      }
    }
  }

  /** `isPlugin`. */
  predicate IsPlugin(id: string) {
    PluginPrefixLength(id).Some?
  }

  /** `isPlugin` holds exactly when some prefix of the id is in the language of
      `pluginRE`. */
  lemma IsPluginMatches(id: string)
    ensures IsPlugin(id) <==> exists n :: 0 <= n <= |id| && PluginREPrefix(id[..n])
  {
    if IsPlugin(id) {
      PluginPrefixLengthMatches(id, PluginPrefixLength(id).value);
    }
    if n :| 0 <= n <= |id| && PluginREPrefix(id[..n]) {
      PluginPrefixLengthMatches(id, n);
    }
  }

  /** `isOfficialPlugin`: a plugin id under the `@vue/` scope (`officialRE`). These are
      exactly the ids starting with `@vue/cli-plugin-` or `@vue/vue-cli-plugin-`. */
  function IsOfficialPlugin(id: string): (r: bool)
    ensures r <==> StartsWith(id, OfficialPrefix) || StartsWith(id, "@vue/vue-cli-plugin-")
  {
    OfficialFacts(id);
    IsPlugin(id) && StartsWith(id, "@vue/")
  }

  lemma OfficialFacts(id: string)
    ensures IsPlugin(id) && StartsWith(id, "@vue/")
            <==> StartsWith(id, OfficialPrefix) || StartsWith(id, "@vue/vue-cli-plugin-")
  {
    VueScopedPlugin(id);
    if StartsWith(id, OfficialPrefix) {
      OfficialPrefixInVueScope(id);
    } else if StartsWith(id, "@vue/vue-cli-plugin-") {
      VueCommunityInVueScope(id);
    }
  }

  /** An id with the official prefix is a plugin id in the `@vue` scope. */
  lemma OfficialPrefixInVueScope(id: string)
    requires StartsWith(id, OfficialPrefix)
    ensures IsPlugin(id) && StartsWith(id, "@vue/")
  {
    assert id[..5] == OfficialPrefix[..5];
  }

  /** An id starting `@vue/vue-cli-plugin-` is a plugin id in the `@vue` scope. */
  lemma VueCommunityInVueScope(id: string)
    requires StartsWith(id, "@vue/vue-cli-plugin-")
    ensures IsPlugin(id) && StartsWith(id, "@vue/")
  {
    assert ValidScope("vue");
    assert "@vue/vue-cli-plugin-" == "@" + "vue" + "/" + CommunityPrefix;
    ScopedComplete(id, "vue");
    assert id[..5] == "@vue/vue-cli-plugin-"[..5];
  }

  /** A plugin id in the `@vue` scope without the official prefix is a scoped plugin id
      of the `@vue` scope. */
  lemma VueScopedPlugin(id: string)
    ensures IsPlugin(id) && StartsWith(id, "@vue/") && !StartsWith(id, OfficialPrefix)
            ==> StartsWith(id, "@vue/vue-cli-plugin-")
  {
    if IsPlugin(id) && StartsWith(id, "@vue/") && !StartsWith(id, OfficialPrefix) {
      VueScopeLength(id);
      assert id[0] == id[..5][0] != CommunityPrefix[0];
      assert StartsWith(id[5..], CommunityPrefix);
      assert id[..20] == id[..5] + id[5..][..15];
    }
  }

  /** `@vue/` is a scope prefix. */
  lemma VueScopeLength(id: string)
    requires StartsWith(id, "@vue/")
    ensures ScopeLength(id) == Some(5)
  {
    assert ValidScope("vue");
    assert id[..5] == "@" + "vue" + "/";
    ScopeLengthMatches(id, 5);
  }

  /** `toShortPluginId`: a plugin id loses its plugin prefix, anything else is kept. */
  function ToShortPluginId(id: string): (r: string)
    ensures IsPlugin(id) ==> |r| < |id| && id == id[..|id| - |r|] + r && PluginREPrefix(id[..|id| - |r|])
    ensures !IsPlugin(id) ==> r == id
  {
    match PluginPrefixLength(id)
    case Some(n) =>
      PluginPrefixLengthMatches(id, n);
      assert id == id[..n] + id[n..];
      id[n..]
    case None => id
  }

  /** `id.replace(scopeRE, '')`: the id without its `@scope/` prefix, if it has one. */
  function StripScope(id: string): (r: string)
    ensures |r| <= |id|
    ensures ScopeLength(id).Some? ==> id == id[..|id| - |r|] + r && ScopePrefix(id[..|id| - |r|])
    ensures ScopeLength(id).None? ==> r == id
  {
    match ScopeLength(id)
    case Some(n) =>
      ScopeLengthMatches(id, n);
      assert id == id[..n] + id[n..];
      id[n..]
    case None => id
  }

  /** The package of the service, which is not a plugin. */
  const CliService: string := "@vue/cli-service"

  /** The short names that resolve to official plugins. */
  const OfficialPlugins: seq<string> := [
    "babel", "e2e-cypress", "e2e-nightwatch", "e2e-webdriverio", "eslint", "pwa",
    "router", "typescript", "unit-jest", "unit-mocha", "vuex", "webpack-4"
  ]

  /** `resolvePluginId`: a full id or the service is kept; an official short name gets the
      official prefix; a scoped short name `@scope/x` becomes `@scope/vue-cli-plugin-x`
      (`@vue/cli-plugin-x` for the `@vue` scope); anything else gets the unscoped
      prefix. */
  function ResolvePluginId(id: string): (r: string)
    ensures IsPlugin(id) || id == CliService ==> r == id
  {
    if IsPlugin(id) then id
    else if id == CliService then id
    else if id in OfficialPlugins then OfficialPrefix + id
    else if |id| > 0 && id[0] == '@' && ScopeLength(id).Some? then
      var n := ScopeLength(id).value;
      ScopedJoin(id[..n], id[n..])
    else CommunityPrefix + id
  }

  /** `matchesPluginId`: `input` names the plugin `full` in full, by its short id, or by
      its short id under some scope. */
  function MatchesPluginId(input: string, full: string): (r: bool) {
    var short := ToShortPluginId(full);
    full == input || short == input || short == StripScope(input)
  }

  /** Adding the official prefix gives a plugin id whose short id is what was added to. */
  lemma OfficialPrefixed(x: string)
    ensures PluginPrefixLength(OfficialPrefix + x) == Some(|OfficialPrefix|)
    ensures ToShortPluginId(OfficialPrefix + x) == x
  {
    assert (OfficialPrefix + x)[..|OfficialPrefix|] == OfficialPrefix;
    assert (OfficialPrefix + x)[|OfficialPrefix|..] == x;
  }

  /** Adding the unscoped prefix gives a plugin id whose short id is what was added to. */
  lemma CommunityPrefixed(x: string)
    ensures PluginPrefixLength(CommunityPrefix + x) == Some(|CommunityPrefix|)
    ensures ToShortPluginId(CommunityPrefix + x) == x
  {
    var id := CommunityPrefix + x;
    assert id[..|CommunityPrefix|] == CommunityPrefix;
    assert id[0] == 'v';
    assert id[|CommunityPrefix|..] == x;
  }

  /** Putting `vue-cli-plugin-` between a valid scope prefix and `x` gives a plugin id
      whose short id is `x`. */
  lemma ScopedPrefixed(scope: string, x: string)
    requires ScopePrefix(scope)
    ensures PluginPrefixLength(scope + CommunityPrefix + x) == Some(|scope| + |CommunityPrefix|)
    ensures ToShortPluginId(scope + CommunityPrefix + x) == x
  {
    var id := scope + CommunityPrefix + x;
    var n := |scope| + |CommunityPrefix|;
    var s :| ValidScope(s) && scope == "@" + s + "/";
    assert id[..n] == "@" + s + "/" + CommunityPrefix;
    PluginPrefixLengthMatches(id, n);
    assert id[n..] == x;
  }

  /** What `resolvePluginId` does to a name that is neither a full id nor the service:
      the result is a plugin id whose short id is the name without its scope. An official
      short name gets the official prefix; a scoped name keeps its scope, followed by
      `cli-plugin-` for `@vue/` and `vue-cli-plugin-` for any other scope, so the result
      is official exactly when the scope is `@vue/`; any other name gets the unscoped
      prefix. */
  lemma ResolveShortName(id: string)
    requires !IsPlugin(id) && id != CliService
    ensures IsPlugin(ResolvePluginId(id))
    ensures ToShortPluginId(ResolvePluginId(id)) == StripScope(id)
    ensures id in OfficialPlugins ==> ResolvePluginId(id) == OfficialPrefix + id
    ensures id !in OfficialPlugins && ScopeLength(id).Some? ==>
              var scope := id[..ScopeLength(id).value];
              && StartsWith(ResolvePluginId(id), scope)
              && (IsOfficialPlugin(ResolvePluginId(id)) <==> scope == "@vue/")
              && (scope == "@vue/" ==> ResolvePluginId(id) == OfficialPrefix + StripScope(id))
              && (scope != "@vue/" ==> ResolvePluginId(id) == scope + CommunityPrefix + StripScope(id))
    ensures id !in OfficialPlugins && ScopeLength(id).None? ==>
              ResolvePluginId(id) == CommunityPrefix + id
  {
    if id in OfficialPlugins {
      ResolveOfficialName(id);
    } else if ScopeLength(id).Some? {
      ResolveScopedName(id);
    } else {
      ResolveBareName(id);
    }
  }

  lemma ResolveOfficialName(id: string)
    requires !IsPlugin(id) && id != CliService && id in OfficialPlugins
    ensures ResolvePluginId(id) == OfficialPrefix + id
    ensures IsPlugin(ResolvePluginId(id))
    ensures ToShortPluginId(ResolvePluginId(id)) == StripScope(id)
  {
    assert ResolvePluginId(id) == OfficialPrefix + id;
    OfficialPrefixed(id);
    assert id[0] != '@';
    assert StripScope(id) == id;
  }

  lemma ResolveScopedName(id: string)
    requires !IsPlugin(id) && id != CliService && id !in OfficialPlugins && ScopeLength(id).Some?
    ensures IsPlugin(ResolvePluginId(id))
    ensures ToShortPluginId(ResolvePluginId(id)) == StripScope(id)
    ensures StartsWith(ResolvePluginId(id), id[..ScopeLength(id).value])
    ensures IsOfficialPlugin(ResolvePluginId(id)) <==> id[..ScopeLength(id).value] == "@vue/"
    ensures id[..ScopeLength(id).value] == "@vue/" ==> ResolvePluginId(id) == OfficialPrefix + StripScope(id)
    ensures id[..ScopeLength(id).value] != "@vue/" ==>
              ResolvePluginId(id) == id[..ScopeLength(id).value] + CommunityPrefix + StripScope(id)
  {
    var n := ScopeLength(id).value;
    var scope, short := id[..n], id[n..];
    assert id[0] == '@';
    ScopeLengthMatches(id, n);
    assert StripScope(id) == short;
    assert ResolvePluginId(id) == ScopedJoin(scope, short);
    ScopedJoinShort(scope, short);
  }

  /** The id a scoped short name resolves to: the scope, then `cli-plugin-` for `@vue/`
      and `vue-cli-plugin-` for any other scope, then the short name. */
  function ScopedJoin(scope: string, short: string): (r: string) {
    scope + (if scope == "@vue/" then "" else "vue-") + "cli-plugin-" + short
  }

  /** A scoped join is a plugin id whose short id is the name joined; it starts with the
      scope, and it is official exactly when the scope is `@vue/`. */
  lemma ScopedJoinShort(scope: string, short: string)
    requires ScopePrefix(scope)
    ensures IsPlugin(ScopedJoin(scope, short))
    ensures ToShortPluginId(ScopedJoin(scope, short)) == short
    ensures StartsWith(ScopedJoin(scope, short), scope)
    ensures IsOfficialPlugin(ScopedJoin(scope, short)) <==> scope == "@vue/"
    ensures scope == "@vue/" ==> ScopedJoin(scope, short) == OfficialPrefix + short
    ensures scope != "@vue/" ==> ScopedJoin(scope, short) == scope + CommunityPrefix + short
  {
    var r := ScopedJoin(scope, short);
    if scope == "@vue/" {
      assert r == OfficialPrefix + short by {
        assert scope + "" + "cli-plugin-" == OfficialPrefix;
      }
      OfficialPrefixed(short);
      assert r[..|OfficialPrefix|] == OfficialPrefix;
      assert r[..|scope|] == scope;
    } else {
      var rest := CommunityPrefix + short;
      assert r == scope + rest by {
        assert scope + "vue-" + "cli-plugin-" == scope + CommunityPrefix;
      }
      assert r[..|scope|] == scope;
      ScopedPrefixed(scope, short);
      if StartsWith(r, "@vue/") {
        VueScopeOnly(scope, rest);
      }
    }
  }

  /** Only the scope `@vue/` puts `@vue/` at the front: a longer scope has a scope
      character at position 4, and a shorter one has its `/` where `@vue/` has a
      letter. */
  lemma VueScopeOnly(scope: string, rest: string)
    requires ScopePrefix(scope) && StartsWith(scope + rest, "@vue/")
    ensures scope == "@vue/"
  {
    var s :| ValidScope(s) && scope == "@" + s + "/";
    var x := scope + rest;
    assert x[..5] == "@vue/";
    assert |s| == 3 by {
      assert x[3] == "@vue/"[3] && x[4] == "@vue/"[4];
    }
    assert s == x[1..4] == "vue";
  }

  lemma ResolveBareName(id: string)
    requires !IsPlugin(id) && id != CliService && id !in OfficialPlugins && ScopeLength(id).None?
    ensures ResolvePluginId(id) == CommunityPrefix + id
    ensures IsPlugin(ResolvePluginId(id))
    ensures ToShortPluginId(ResolvePluginId(id)) == StripScope(id)
  {
    assert ResolvePluginId(id) == CommunityPrefix + id;
    CommunityPrefixed(id);
  }

  /** `resolvePluginId` always returns a plugin id or the service. */
  lemma ResolveIsPluginOrService(id: string)
    ensures IsPlugin(ResolvePluginId(id)) || ResolvePluginId(id) == CliService
  {
    if !IsPlugin(id) && id != CliService {
      ResolveShortName(id);
    }
  }

  /** Resolving twice is resolving once. */
  lemma ResolveIdempotent(id: string)
    ensures ResolvePluginId(ResolvePluginId(id)) == ResolvePluginId(id)
  {
    ResolveIsPluginOrService(id);
  }

  /** Every name matches the id it resolves to. */
  lemma MatchesResolved(id: string)
    ensures MatchesPluginId(id, ResolvePluginId(id))
  {
    if !IsPlugin(id) && id != CliService {
      ResolveShortName(id);
    }
  }

  /** An unscoped name that is not a full id comes back from resolving and shortening. */
  lemma ShortOfResolved(id: string)
    requires !IsPlugin(id) && (|id| == 0 || id[0] != '@')
    ensures ToShortPluginId(ResolvePluginId(id)) == id
  {
    ResolveShortName(id);
  }

  /** The scope pattern needs at least two characters, so a one-letter scope does not
      make a plugin id. */
  lemma OneLetterScopeIsNotPlugin()
    ensures !IsPlugin("@a/vue-cli-plugin-x")
  {
    var id := "@a/vue-cli-plugin-x";
    assert id[1] != OfficialPrefix[1] && id[0] != CommunityPrefix[0];
    assert id[2] == '/' && id[1] != '/';
    assert SlashFrom(id, 1) == 2;
    assert |id[1..2]| < 2;
    assert ScopeLength(id) == None;
  }

  /** A two-letter scope does. */
  lemma TwoLetterScopeIsPlugin()
    ensures IsPlugin("@ab/vue-cli-plugin-x")
  {
    var id := "@ab/vue-cli-plugin-x";
    assert ValidScope("ab");
    assert id[..19] == "@" + "ab" + "/" + CommunityPrefix;
    ScopedComplete(id, "ab");
  }

  /** A bare name gets the unscoped prefix. */
  lemma ResolveBareExample()
    ensures ResolvePluginId("foo") == "vue-cli-plugin-foo"
  {
    assert !IsPlugin("foo");
    assert "foo" !in OfficialPlugins;
  }

  /** An official short name gets the official prefix. */
  lemma ResolveOfficialExample()
    ensures ResolvePluginId("eslint") == "@vue/cli-plugin-eslint"
  {
    assert !IsPlugin("eslint");
    assert "eslint" == OfficialPlugins[4];
  }

  /** A name in the `@vue` scope gets the official prefix. */
  lemma ResolveVueScopedExample()
    ensures ResolvePluginId("@vue/foo") == "@vue/cli-plugin-foo"
  {
    var id := "@vue/foo";
    assert ValidScope("vue") && id[..5] == "@" + "vue" + "/";
    ScopeLengthMatches(id, 5);
    assert id[..5] == "@vue/" && id[5..] == "foo";
    assert !IsPlugin(id) by {
      assert |id| < |CommunityPrefix|;
    }
    assert id !in OfficialPlugins;
  }

  /** A name in another scope gets `vue-cli-plugin-` after the scope. */
  lemma ResolveScopedExample()
    ensures ResolvePluginId("@bar/foo") == "@bar/vue-cli-plugin-foo"
  {
    var id := "@bar/foo";
    assert ValidScope("bar") && id[..5] == "@" + "bar" + "/";
    ScopeLengthMatches(id, 5);
    assert id[..5] == "@bar/" && id[5..] == "foo";
    assert !IsPlugin(id) by {
      assert |id| < |CommunityPrefix|;
    }
    assert id !in OfficialPlugins;
  }
}
