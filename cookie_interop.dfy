/**
 * The cookie string the SF client builds (`"; "`-joined `key=value` pairs)
 * and the WPS client's `_parse_cookies` are inverse to each other: parsing
 * a joined list gives every key the value of its last pair, provided no key
 * holds '=' and neither keys nor values hold `"; "`.
 */
module CookieInterop {
  import opened Wrappers
  import opened Text
  import opened SfApi
  import opened WpsApi

  /** Cookies that survive the round trip. */
  predicate Plain(cs: seq<Cookie>) {
    forall j :: 0 <= j < |cs| ==> !('=' in cs[j].key) && !Contains(cs[j].key, "; ") && !Contains(cs[j].value, "; ")
  }

  /** '=' is neither ';' nor ' ', so `"; "` cannot straddle it. */
  lemma PairAvoidsSeparator(k: string, v: string)
    requires !Contains(k, "; ") && !Contains(v, "; ")
    ensures !Contains(k + "=" + v, "; ")
  {
    var s := k + "=" + v;
    forall j | 0 <= j <= |s| ensures !OccursAt(s, "; ", j) {
      if j + 2 > |s| {
      } else if j + 2 <= |k| {
        assert s[j..j + 2] == k[j..j + 2];
        assert !OccursAt(k, "; ", j);
      } else if j <= |k| {
        assert s[|k|] == '=';
        assert s[j..j + 2][|k| - j] == '=';
      } else {
        var i := j - |k| - 1;
        assert s[j..j + 2] == v[i..i + 2];
        assert !OccursAt(v, "; ", i);
      }
    }
  }

  lemma {:induction false} DictOfItems(cs: seq<Cookie>, k: string)
    requires forall j :: 0 <= j < |cs| ==> !('=' in cs[j].key)
    ensures k in CookieDict(CookieItems(cs)) <==> LastFor(cs, k).Some?
    ensures k in CookieDict(CookieItems(cs)) ==> CookieDict(CookieItems(cs))[k] == LastFor(cs, k).value
  {
    if cs != [] {
      var n := |cs| - 1;
      var items := CookieItems(cs[..n]);
      DictOfItems(cs[..n], k);
      assert CookieItems(cs) == items + [cs[n].key + "=" + cs[n].value];
      LaterItemWins(items, cs[n].key, cs[n].value);
      assert LastFor(cs, k) == if cs[n].key == k then Some(cs[n].value) else LastFor(cs[..n], k);
    }
  }

  /** Parsing a joined cookie list gives each key the value of its last pair, and no other key. */
  lemma JoinThenParse(cs: seq<Cookie>)
    requires Plain(cs)
    ensures var d := CookieDict(Split(JoinCookies(cs), "; "));
      && (forall k :: k in d <==> LastFor(cs, k).Some?)
      && (forall k :: k in d ==> d[k] == LastFor(cs, k).value)
  {
    if cs == [] {
      assert JoinCookies(cs) == "";
      assert Split("", "; ") == [""];
      ItemWithoutEquals([], "");
    } else {
      var items := CookieItems(cs);
      forall j | 0 <= j < |items| ensures !Contains(items[j], "; ") {
        PairAvoidsSeparator(cs[j].key, cs[j].value);
      }
      SplitJoin(items, "; ");
      forall k ensures k in CookieDict(items) <==> LastFor(cs, k).Some? {
        DictOfItems(cs, k);
      }
      forall k | k in CookieDict(items) ensures CookieDict(items)[k] == LastFor(cs, k).value {
        DictOfItems(cs, k);
      }
    }
  }

  /** For a jar with distinct keys, the last pair of a key is its only one. */
  lemma {:induction false} LastForDistinct(jar: seq<Cookie>, k: string)
    requires DistinctKeys(jar)
    ensures LastFor(jar, k) == Lookup(jar, k)
  {
    if jar != [] {
      var n := |jar| - 1;
      assert DistinctKeys(jar[..n]);
      LastForDistinct(jar[..n], k);
      if jar[n].key == k {
        LookupAt(jar, n);
      } else {
        LookupPrefix(jar, k);
      }
    }
  }

  lemma {:induction false} LookupPrefix(jar: seq<Cookie>, k: string)
    requires jar != [] && jar[|jar| - 1].key != k
    ensures Lookup(jar, k) == Lookup(jar[..|jar| - 1], k)
  {
    if |jar| > 1 && jar[0].key != k {
      assert jar[1..][..|jar| - 2] == jar[..|jar| - 1][1..];
      LookupPrefix(jar[1..], k);
    }
  }

  lemma {:induction false} LookupAt(jar: seq<Cookie>, i: nat)
    requires i < |jar| && forall l :: 0 <= l < i ==> jar[l].key != jar[i].key
    ensures Lookup(jar, jar[i].key) == Some(jar[i].value)
  {
    if i > 0 {
      LookupAt(jar[1..], i - 1);
    }
  }

  /** So the WPS parser reads back exactly what an SF jar holds. */
  lemma JarThenParse(jar: seq<Cookie>, k: string)
    requires Plain(jar) && DistinctKeys(jar)
    ensures var d := CookieDict(Split(JoinCookies(jar), "; "));
      Lookup(jar, k) == (if k in d then Some(d[k]) else None)
  {
    JoinThenParse(jar);
    LastForDistinct(jar, k);
  }
}
