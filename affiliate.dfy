/** Affiliate-link cleaning of the utility cog (`ChatControl`, in
    `on_automod_finished`): for every link of a message, the query keys are
    lower-cased, every suffix of the host name is matched against the table
    of affiliate globs, the listed tag keys are dropped from the query, and
    an Amazon `/exec/obidos/ASIN/<id>/...` path becomes `/dp/<id>`. A link
    that changed is replaced in the message text by its cleaned form. */
module Affiliate {
  import opened Options
  import opened Text

  /** One entry of `affiliateTags`: a host-name glob and the query keys it strips. */
  datatype Rule = Rule(glob: string, tags: seq<string>)

  /** The table `ChatControl.affiliateTags`, in its order. */
  const AffiliateTags: seq<Rule> := [
    Rule("*", ["awc"]),
    Rule("amazon.*", ["colid", "coliid", "tag", "ascsubtag"]),
    Rule("bestbuy.*", ["aid", "cjpid", "lid", "pid"]),
    Rule("bhphotovideo.com", ["sid"]),
    Rule("ebay.*", ["afepn", "campid", "pid"]),
    Rule("gamestop.com", ["affid", "cid", "sourceid"]),
    Rule("groupon.*", ["affid"]),
    Rule("newegg*.*", ["aid", "pid"]),
    Rule("play-asia.com", ["tagid"]),
    Rule("stacksocial.com", ["aid", "rid"]),
    Rule("store.nintendo.co.uk", ["affil"]),
    Rule("tigerdirect.com", ["affiliateid", "srccode"]),
    Rule("walmart.*", ["sourceid", "veh", "wmlspartner"])
  ]

  const AmazonGlob := "amazon.*"

  // ---------------------------------------------------------------------
  // Query dictionaries

  /** One `key=value` pair of a query string. */
  datatype Param = Param(key: string, value: string)

  /** An insertion-ordered dictionary, as Python's `dict`. */
  type Query = seq<Param>

  function Keys(q: Query): set<string> {
    set i | 0 <= i < |q| :: q[i].key
  }

  lemma KeysOne(p: Param)
    ensures Keys([p]) == {p.key}
  {
    assert [p][0].key == p.key;
  }

  lemma KeysConcat(a: Query, b: Query)
    ensures Keys(a + b) == Keys(a) + Keys(b)
  {
    forall k | k in Keys(a + b) ensures k in Keys(a) + Keys(b) {
      var i :| 0 <= i < |a + b| && (a + b)[i].key == k;
      if i >= |a| { assert b[i - |a|].key == k; }
    }
    forall k | k in Keys(a) + Keys(b) ensures k in Keys(a + b) {
      if k in Keys(a) {
        var i :| 0 <= i < |a| && a[i].key == k;
        assert (a + b)[i].key == k;
      } else {
        var i :| 0 <= i < |b| && b[i].key == k;
        assert (a + b)[|a| + i].key == k;
      }
    }
  }

  predicate DistinctKeys(q: Query) {
    forall i, j :: 0 <= i < j < |q| ==> q[i].key != q[j].key
  }

  /** `q[k]`, or None when `k` is absent. */
  function Get(q: Query, k: string): (r: Option<string>)
    ensures r.None? <==> k !in Keys(q)
  {
    if q == [] then None
    else if q[0].key == k then Some(q[0].value)
    else
      assert Keys(q) == {q[0].key} + Keys(q[1..]);
      Get(q[1..], k)
  }

  /** `q[k] = v`: a present key keeps its place and takes the new value; a
      new key goes last. */
  function Put(q: Query, k: string, v: string): (r: Query)
    ensures Keys(r) == Keys(q) + {k}
    ensures DistinctKeys(q) ==> DistinctKeys(r)
    ensures Get(r, k) == Some(v)
    ensures forall k' :: k' != k ==> Get(r, k') == Get(q, k')
  {
    if q == [] then
      KeysOne(Param(k, v));
      [Param(k, v)]
    else if q[0].key == k then
      assert q == [q[0]] + q[1..];
      KeysConcat([q[0]], q[1..]);
      KeysConcat([Param(k, v)], q[1..]);
      KeysOne(q[0]);
      KeysOne(Param(k, v));
      TailDistinct(q);
      ConsDistinct(Param(k, v), q[1..]);
      assert ([Param(k, v)] + q[1..])[1..] == q[1..];
      [Param(k, v)] + q[1..]
    else
      var rest := Put(q[1..], k, v);
      var r := [q[0]] + rest;
      assert q == [q[0]] + q[1..];
      KeysConcat([q[0]], q[1..]);
      KeysConcat([q[0]], rest);
      KeysOne(q[0]);
      TailDistinct(q);
      ConsDistinct(q[0], rest);
      assert r[1..] == rest;
      r
  }

  /** `dict(pairs)`: later pairs override earlier ones. */
  function FromPairs(pairs: seq<Param>): (r: Query)
    ensures DistinctKeys(r)
    ensures Keys(r) == Keys(pairs)
  {
    if pairs == [] then []
    else
      var last := pairs[|pairs| - 1];
      assert Keys(pairs) == Keys(pairs[..|pairs| - 1]) + {last.key};
      Put(FromPairs(pairs[..|pairs| - 1]), last.key, last.value)
  }

  /** The pairs with lower-cased keys. */
  function LowerPairs(q: Query): (r: seq<Param>)
    ensures |r| == |q|
    ensures forall i :: 0 <= i < |q| ==> r[i] == Param(Lower(q[i].key), q[i].value)
  {
    if q == [] then [] else [Param(Lower(q[0].key), q[0].value)] + LowerPairs(q[1..])
  }

  /** `{k.lower(): v for k, v in q.items()}` */
  function LowerKeys(q: Query): (r: Query)
    ensures DistinctKeys(r)
    ensures forall k :: k in Keys(r) ==> IsLower(k)
  {
    var r := FromPairs(LowerPairs(q));
    forall k | k in Keys(r) ensures IsLower(k) {
      var i :| 0 <= i < |LowerPairs(q)| && LowerPairs(q)[i].key == k;
      LowerIsLower(q[i].key);
    }
    r
  }

  /** The dictionary without the keys in `drop`, the rest in order. */
  function Without(q: Query, drop: set<string>): (r: Query)
    ensures Keys(r) == Keys(q) - drop
    ensures DistinctKeys(q) ==> DistinctKeys(r)
  {
    if q == [] then []
    else
      var rest := Without(q[1..], drop);
      assert q == [q[0]] + q[1..];
      KeysConcat([q[0]], q[1..]);
      KeysOne(q[0]);
      if q[0].key in drop then rest
      else
        KeysConcat([q[0]], rest);
        TailDistinct(q);
        ConsDistinct(q[0], rest);
        [q[0]] + rest
  }

  lemma TailDistinct(q: Query)
    requires q != []
    ensures DistinctKeys(q) ==> DistinctKeys(q[1..]) && q[0].key !in Keys(q[1..])
  {
    if DistinctKeys(q) {
      forall j | 0 <= j < |q[1..]| ensures q[1..][j].key != q[0].key {
        assert q[1..][j] == q[j + 1];
      }
      forall a, b | 0 <= a < b < |q[1..]| ensures q[1..][a].key != q[1..][b].key {
        assert q[1..][a] == q[a + 1] && q[1..][b] == q[b + 1];
      }
    }
  }

  lemma ConsDistinct(p: Param, rest: Query)
    ensures DistinctKeys(rest) && p.key !in Keys(rest) ==> DistinctKeys([p] + rest)
  {
    if DistinctKeys(rest) && p.key !in Keys(rest) {
      var r := [p] + rest;
      forall a, b | 0 <= a < b < |r| ensures r[a].key != r[b].key {
        if a == 0 {
          assert r[b] == rest[b - 1];
          assert rest[b - 1].key in Keys(rest);
        } else {
          assert r[a] == rest[a - 1] && r[b] == rest[b - 1];
        }
      }
    }
  }

  /** `q.pop(k, None)` */
  function Pop(q: Query, k: string): Query {
    Without(q, {k})
  }

  lemma {:induction false} WithoutWithout(q: Query, a: set<string>, b: set<string>)
    ensures Without(Without(q, a), b) == Without(q, a + b)
  {
    if q != [] {
      WithoutWithout(q[1..], a, b);
    }
  }

  lemma {:induction false} WithoutNothing(q: Query, drop: set<string>)
    requires Keys(q) * drop == {}
    ensures Without(q, drop) == q
  {
    if q != [] {
      assert q == [q[0]] + q[1..];
      KeysConcat([q[0]], q[1..]);
      KeysOne(q[0]);
      var k0 := q[0].key;
      assert k0 in Keys(q);
      assert k0 in Keys(q) * drop <==> k0 in drop;
      assert k0 !in drop;
      WithoutNothing(q[1..], drop);
      assert Without(q, drop) == [q[0]] + Without(q[1..], drop);
    }
  }

  /** Dropping keys keeps every other key with its value. */
  lemma {:induction false} WithoutKeeps(q: Query, drop: set<string>, k: string)
    requires k !in drop
    ensures Get(Without(q, drop), k) == Get(q, k)
  {
    if q != [] {
      WithoutKeeps(q[1..], drop, k);
    }
  }

  // ---------------------------------------------------------------------
  // Which tags a host name loses

  /** `".".join(labels[i - len(labels):])`: the host name from label `i` on. */
  function Domain(labels: seq<string>, i: nat): string
    requires i <= |labels|
  {
    Join(labels[i..], ".")
  }

  function TagSet(tags: seq<string>): set<string> {
    set t | t in tags
  }

  /** Tags of the first `n` rules whose glob matches `domain`. */
  function RuleTags(domain: string, n: nat): set<string>
    requires n <= |AffiliateTags|
  {
    if n == 0 then {}
    else RuleTags(domain, n - 1) + (if GlobMatch(domain, AffiliateTags[n - 1].glob) then TagSet(AffiliateTags[n - 1].tags) else {})
  }

  /** Tags matched at the first `m` suffixes of the host name. */
  function SuffixTags(labels: seq<string>, m: nat): set<string>
    requires m <= |labels|
  {
    if m == 0 then {} else SuffixTags(labels, m - 1) + RuleTags(Domain(labels, m - 1), |AffiliateTags|)
  }

  /** Every query key the link loses, over all suffixes and rules. */
  function Blocked(labels: seq<string>): set<string> {
    SuffixTags(labels, |labels|)
  }

  /** One of the first `m` suffixes matches `amazon.*`. */
  predicate AmazonUpTo(labels: seq<string>, m: nat)
    requires m <= |labels|
  {
    m > 0 && (AmazonUpTo(labels, m - 1) || GlobMatch(Domain(labels, m - 1), AmazonGlob))
  }

  predicate AmazonDomain(labels: seq<string>) {
    AmazonUpTo(labels, |labels|)
  }

  lemma {:induction false} RuleTagsIff(domain: string, n: nat, t: string)
    requires n <= |AffiliateTags|
    ensures t in RuleTags(domain, n) <==>
      exists g :: 0 <= g < n && GlobMatch(domain, AffiliateTags[g].glob) && t in AffiliateTags[g].tags
  {
    if n > 0 {
      RuleTagsIff(domain, n - 1, t);
    }
  }

  lemma {:induction false} SuffixTagsIff(labels: seq<string>, m: nat, t: string)
    requires m <= |labels|
    ensures t in SuffixTags(labels, m) <==>
      exists i, g :: 0 <= i < m && 0 <= g < |AffiliateTags|
        && GlobMatch(Domain(labels, i), AffiliateTags[g].glob) && t in AffiliateTags[g].tags
  {
    if m > 0 {
      SuffixTagsIff(labels, m - 1, t);
      RuleTagsIff(Domain(labels, m - 1), |AffiliateTags|, t);
    }
  }

  /** A key is stripped exactly when some suffix of the host name matches a
      glob whose list holds it. */
  lemma BlockedIff(labels: seq<string>, t: string)
    ensures t in Blocked(labels) <==>
      exists i, g :: 0 <= i < |labels| && 0 <= g < |AffiliateTags|
        && GlobMatch(Domain(labels, i), AffiliateTags[g].glob) && t in AffiliateTags[g].tags
  {
    SuffixTagsIff(labels, |labels|, t);
  }

  /** The Amazon rewrite applies exactly when some suffix of the host name
      starts with `amazon.`. */
  lemma {:induction false} AmazonDomainIff(labels: seq<string>, m: nat)
    requires m <= |labels|
    ensures AmazonUpTo(labels, m) <==> exists i :: 0 <= i < m && "amazon." <= Domain(labels, i)
  {
    if m > 0 {
      AmazonDomainIff(labels, m - 1);
      assert AmazonGlob == "amazon." + "*";
      PrefixGlob(Domain(labels, m - 1), "amazon.");
    }
  }

  /** The catch-all rule strips `awc` from every link with a host. */
  lemma AwcAlwaysStripped(labels: seq<string>)
    requires labels != []
    ensures "awc" in Blocked(labels)
  {
    var rule := AffiliateTags[0];
    assert rule == Rule("*", ["awc"]);
    StarMatchesAll(Domain(labels, 0));
    assert GlobMatch(Domain(labels, 0), rule.glob) && "awc" in rule.tags;
    BlockedIff(labels, "awc");
  }

  /** On an Amazon host all four Amazon tags are stripped. */
  lemma AmazonTagsStripped(labels: seq<string>)
    requires AmazonDomain(labels)
    ensures {"colid", "coliid", "tag", "ascsubtag"} <= Blocked(labels)
  {
    AmazonDomainIff(labels, |labels|);
    var i :| 0 <= i < |labels| && "amazon." <= Domain(labels, i);
    assert AmazonGlob == "amazon." + "*";
    PrefixGlob(Domain(labels, i), "amazon.");
    var tags := AffiliateTags[1].tags;
    assert tags == ["colid", "coliid", "tag", "ascsubtag"];
    forall t | t in tags ensures t in Blocked(labels) {
      BlockedIff(labels, t);
    }
  }

  // ---------------------------------------------------------------------
  // The Amazon path rewrite

  /** `\w` on ASCII. */
  predicate IsWordChar(c: char) {
    ('a' <= c <= 'z') || ('A' <= c <= 'Z') || ('0' <= c <= '9') || c == '_'
  }

  predicate AllWord(s: string) {
    forall i :: 0 <= i < |s| ==> IsWordChar(s[i])
  }

  /** What `.*$` accepts: no line break, except one that ends the string. */
  predicate LineTail(s: string) {
    forall i :: 0 <= i < |s| && s[i] == '\n' ==> i == |s| - 1
  }

  /** The length of the run of word characters `s` starts with. */
  function WordRun(s: string): (n: nat)
    ensures n <= |s| && AllWord(s[..n])
    ensures n < |s| ==> !IsWordChar(s[n])
  {
    if s == [] || !IsWordChar(s[0]) then 0
    else
      var n := 1 + WordRun(s[1..]);
      assert s[..n] == [s[0]] + s[1..][..n - 1];
      n
  }

  const AsinPrefix := "/exec/obidos/ASIN/"

  /** `re.match(r'^/exec/obidos/ASIN/(\w+)/.*$', path).group(1)`, or None
      when the path does not match. */
  function AsinOf(path: string): Option<string> {
    if !(AsinPrefix <= path) then None
    else
      var rest := path[|AsinPrefix|..];
      var n := WordRun(rest);
      if n == 0 || n == |rest| || rest[n] != '/' || !LineTail(rest[n + 1..]) then None
      else Some(rest[..n])
  }

  lemma WordRunOf(w: string, tail: string)
    requires AllWord(w) && (tail == [] || !IsWordChar(tail[0]))
    ensures WordRun(w + tail) == |w|
    decreases |w|
  {
    if w != [] {
      assert (w + tail)[1..] == w[1..] + tail;
      WordRunOf(w[1..], tail);
    }
  }

  /** A match decomposes the path. */
  lemma AsinSound(path: string)
    requires AsinOf(path).Some?
    ensures var w := AsinOf(path).value;
      w != [] && AllWord(w)
      && exists tail :: LineTail(tail) && path == AsinPrefix + w + "/" + tail
  {
    var rest := path[|AsinPrefix|..];
    var n := WordRun(rest);
    var tail := rest[n + 1..];
    assert path == AsinPrefix + rest[..n] + "/" + tail;
  }

  /** And every path of that shape matches, with the word as its group. */
  lemma AsinComplete(w: string, tail: string)
    requires w != [] && AllWord(w) && LineTail(tail)
    ensures AsinOf(AsinPrefix + w + "/" + tail) == Some(w)
  {
    var path := AsinPrefix + w + "/" + tail;
    assert path[|AsinPrefix|..] == w + ("/" + tail);
    WordRunOf(w, "/" + tail);
    assert (w + ("/" + tail))[|w| + 1..] == tail;
  }

  // ---------------------------------------------------------------------
  // Cleaning one link

  /** The parts of `urlsplit(link)` the cleaning uses; `labels` is the
      host name split at dots, as `urlsplit` gives it (lower case), and
      `pairs` is `parse_qsl` of the query string. */
  datatype LinkParts = LinkParts(scheme: string, netloc: string, labels: seq<string>, path: string,
                                 pairs: seq<Param>, fragment: string)

  datatype Cleaned = Cleaned(modified: bool, path: string, query: Query)

  /** What cleaning a link must produce: the lower-cased query without every
      blocked key, the path rewritten on an Amazon host, and `modified` set
      exactly when a key was dropped or the path rewritten. */
  function Clean(p: LinkParts): Cleaned {
    var q0 := LowerKeys(FromPairs(p.pairs));
    var asin := AsinOf(p.path);
    var rewrite := AmazonDomain(p.labels) && asin.Some?;
    Cleaned(
      rewrite || Keys(q0) * Blocked(p.labels) != {},
      if rewrite then "/dp/" + asin.value else p.path,
      Without(q0, Blocked(p.labels)))
  }

  /** `for tag in tags: if tag in query: query.pop(tag)` */
  method StripTags(query: Query, tags: seq<string>) returns (stripped: Query, removed: bool)
    ensures stripped == Without(query, TagSet(tags))
    ensures removed <==> Keys(query) * TagSet(tags) != {}
  {
    stripped := query;
    removed := false;
    assert TagSet(tags[..0]) == {};
    WithoutNothing(query, {});
    for t := 0 to |tags|
      invariant stripped == Without(query, TagSet(tags[..t]))
      invariant removed <==> Keys(query) * TagSet(tags[..t]) != {}
    {
      assert TagSet(tags[..t + 1]) == TagSet(tags[..t]) + {tags[t]} by {
        assert tags[..t + 1] == tags[..t] + [tags[t]];
      }
      WithoutWithout(query, TagSet(tags[..t]), {tags[t]});
      assert Keys(stripped) == Keys(query) - TagSet(tags[..t]);
      assert Keys(query) * TagSet(tags[..t + 1]) != {} <==>
        Keys(query) * TagSet(tags[..t]) != {} || tags[t] in Keys(stripped);
      if tags[t] in Keys(stripped) {
        removed := true;
        stripped := Pop(stripped, tags[t]);
      } else {
        WithoutNothing(stripped, {tags[t]});
      }
    }
    assert tags[..|tags|] == tags;
  }

  /** The rules' loop at one suffix of the host name. */
  method StripDomain(query: Query, domain: string) returns (stripped: Query, removed: bool)
    ensures stripped == Without(query, RuleTags(domain, |AffiliateTags|))
    ensures removed <==> Keys(query) * RuleTags(domain, |AffiliateTags|) != {}
  {
    stripped := query;
    removed := false;
    WithoutNothing(query, {});
    for g := 0 to |AffiliateTags|
      invariant stripped == Without(query, RuleTags(domain, g))
      invariant removed <==> Keys(query) * RuleTags(domain, g) != {}
    {
      var rule := AffiliateTags[g];
      if GlobMatch(domain, rule.glob) {
        assert RuleTags(domain, g + 1) == RuleTags(domain, g) + TagSet(rule.tags);
        var q', r' := StripTags(stripped, rule.tags);
        WithoutWithout(query, RuleTags(domain, g), TagSet(rule.tags));
        assert Keys(stripped) == Keys(query) - RuleTags(domain, g);
        stripped, removed := q', removed || r';
      } else {
        assert RuleTags(domain, g + 1) == RuleTags(domain, g);
      }
    }
  }

  /** The loops of `on_automod_finished` over one link. */
  method CleanLink(p: LinkParts) returns (linkModified: bool, path: string, query: Query)
    ensures Cleaned(linkModified, path, query) == Clean(p)
  {
    var q0 := LowerKeys(FromPairs(p.pairs));
    var asin := AsinOf(p.path);
    query := q0;
    path := p.path;
    linkModified := false;
    var labels := p.labels;
    WithoutNothing(q0, {});
    for i := 0 to |labels|
      invariant query == Without(q0, SuffixTags(labels, i))
      invariant path == if AmazonUpTo(labels, i) && asin.Some? then "/dp/" + asin.value else p.path
      invariant linkModified == ((AmazonUpTo(labels, i) && asin.Some?) || Keys(q0) * SuffixTags(labels, i) != {})
    {
      var domain := Join(labels[i..], ".");
      if GlobMatch(domain, AmazonGlob) {
        if asin.Some? {
          linkModified := true;
          path := "/dp/" + asin.value;
        }
      }
      var q', removed := StripDomain(query, domain);
      WithoutWithout(q0, SuffixTags(labels, i), RuleTags(domain, |AffiliateTags|));
      assert Keys(query) == Keys(q0) - SuffixTags(labels, i);
      query := q';
      linkModified := linkModified || removed;
    }
  }

  /** What the cleaning keeps: every key that is not blocked, with its
      value, and no blocked key. */
  lemma CleanKeeps(p: LinkParts, k: string)
    ensures var q0 := LowerKeys(FromPairs(p.pairs));
      && (k in Keys(Clean(p).query) <==> k in Keys(q0) && k !in Blocked(p.labels))
      && (k !in Blocked(p.labels) ==> Get(Clean(p).query, k) == Get(q0, k))
  {
    var q0 := LowerKeys(FromPairs(p.pairs));
    if k !in Blocked(p.labels) {
      WithoutKeeps(q0, Blocked(p.labels), k);
    }
  }

  /** Cleaning is idempotent: a cleaned link, cleaned again, keeps its query
      and reports no change unless its path is still an Amazon `ASIN` path. */
  lemma CleanTwice(p: LinkParts)
    ensures var c := Clean(p);
      var p' := p.(path := c.path, pairs := c.query);
      Clean(p').query == c.query
      && (Clean(p').modified ==> AmazonDomain(p.labels) && AsinOf(c.path).Some?)
  {
    var c := Clean(p);
    var q := c.query;
    var q0 := LowerKeys(FromPairs(p.pairs));
    FromPairsOfDict(q);
    LowerKeysOfLower(q);
    assert Keys(q) * Blocked(p.labels) == {};
    WithoutNothing(q, Blocked(p.labels));
  }

  /** `dict` of a dictionary's own items is that dictionary. */
  lemma {:induction false} FromPairsOfDict(q: Query)
    requires DistinctKeys(q)
    ensures FromPairs(q) == q
    decreases |q|
  {
    if q != [] {
      var init := q[..|q| - 1];
      var last := q[|q| - 1];
      assert DistinctKeys(init);
      FromPairsOfDict(init);
      assert last.key !in Keys(init);
      PutAbsent(init, last.key, last.value);
      assert init + [last] == q;
    }
  }

  lemma {:induction false} PutAbsent(q: Query, k: string, v: string)
    requires k !in Keys(q)
    ensures Put(q, k, v) == q + [Param(k, v)]
    decreases |q|
  {
    if q != [] {
      assert q == [q[0]] + q[1..];
      KeysConcat([q[0]], q[1..]);
      KeysOne(q[0]);
      PutAbsent(q[1..], k, v);
      assert q == [q[0]] + q[1..];
    }
  }

  /** Lower-casing the keys of a dictionary already in lower case changes nothing. */
  lemma LowerKeysOfLower(q: Query)
    requires DistinctKeys(q) && forall k :: k in Keys(q) ==> IsLower(k)
    ensures LowerKeys(q) == q
  {
    var lp := LowerPairs(q);
    forall i | 0 <= i < |q| ensures lp[i] == q[i] {
      assert q[i].key in Keys(q);
      LowerIsLower(q[i].key);
    }
    assert lp == q;
    FromPairsOfDict(q);
  }

  // ---------------------------------------------------------------------
  // Rewriting the message

  /** `urlencode(query)`, without percent-encoding. */
  function Encode(q: Query): string {
    if q == [] then []
    else if |q| == 1 then q[0].key + "=" + q[0].value
    else q[0].key + "=" + q[0].value + "&" + Encode(q[1..])
  }

  /** `urlunsplit((scheme, netloc, path, query, fragment))` for a link
      with a host. */
  function Unsplit(scheme: string, netloc: string, path: string, query: string, fragment: string): string {
    var url := if netloc != [] then "//" + netloc + (if path != [] && path[0] != '/' then "/" + path else path) else path;
    var url := if scheme != [] then scheme + ":" + url else url;
    var url := if query != [] then url + "?" + query else url;
    if fragment != [] then url + "#" + fragment else url
  }

  /** A link found in the message; `parts` is None when `urlsplit` raises. */
  datatype Link = Link(text: string, parts: Option<LinkParts>)

  datatype Rewrite = Rewrite(content: string, modified: bool)

  /** A link counts as changed when `urlsplit` succeeds and cleaning it
      drops a key or rewrites its path. */
  predicate LinkChanged(link: Link) {
    link.parts.Some? && Clean(link.parts.value).modified
  }

  /** The text once one more link is handled. */
  function RewriteStep(before: Rewrite, link: Link): (r: Rewrite)
    ensures r.modified == (before.modified || LinkChanged(link))
    ensures !LinkChanged(link) ==> r == before
  {
    if !LinkChanged(link) then before
    else
      var p := link.parts.value;
      var c := Clean(p);
      Rewrite(ReplaceAll(before.content, link.text, Unsplit(p.scheme, p.netloc, c.path, Encode(c.query), p.fragment)), true)
  }

  /** The message text once all the links are handled, in order. */
  function RewriteLinks(content: string, links: seq<Link>): Rewrite
    decreases |links|
  {
    if links == [] then Rewrite(content, false)
    else RewriteStep(RewriteLinks(content, links[..|links| - 1]), links[|links| - 1])
  }

  /** Which links of `links` change, in order. */
  function Changes(links: seq<Link>): (r: seq<bool>)
    ensures |r| == |links|
    ensures forall i :: 0 <= i < |links| ==> r[i] == LinkChanged(links[i])
    decreases |links|
  {
    if links == [] then [] else Changes(links[..|links| - 1]) + [LinkChanged(links[|links| - 1])]
  }

  /** The message is reposted exactly when some link changed; when none did
      the text is exactly the original. */
  lemma {:induction false} RewriteChangesOnlyChangedLinks(content: string, links: seq<Link>)
    ensures RewriteLinks(content, links).modified <==> exists i :: 0 <= i < |links| && LinkChanged(links[i])
    ensures !RewriteLinks(content, links).modified ==> RewriteLinks(content, links).content == content
  {
    RewriteFollowsChanges(content, links);
    var r := Changes(links);
    if true in r {
      var i :| 0 <= i < |r| && r[i];
      assert LinkChanged(links[i]);
    }
  }

  /** The same, stated on `Changes`. */
  lemma {:induction false} RewriteFollowsChanges(content: string, links: seq<Link>)
    ensures RewriteLinks(content, links).modified <==> true in Changes(links)
    ensures !RewriteLinks(content, links).modified ==> RewriteLinks(content, links).content == content
    decreases |links|
  {
    if links != [] {
      var init := links[..|links| - 1];
      RewriteFollowsChanges(content, init);
      assert Changes(links) == Changes(init) + [LinkChanged(links[|links| - 1])];
    }
  }

  /** The loop of `on_automod_finished` over the message's links. */
  method RewriteContent(message: string, links: seq<Link>) returns (content: string, contentModified: bool)
    ensures Rewrite(content, contentModified) == RewriteLinks(message, links)
  {
    content := message;
    contentModified := false;
    for n := 0 to |links|
      invariant Rewrite(content, contentModified) == RewriteLinks(message, links[..n])
    {
      assert links[..n + 1][..n] == links[..n];
      var link := links[n];
      if link.parts.None? {
        continue;
      }
      var p := link.parts.value;
      var linkModified, path, query := CleanLink(p);
      if linkModified {
        var url := Unsplit(p.scheme, p.netloc, path, Encode(query), p.fragment);
        contentModified := true;
        content := ReplaceAll(content, link.text, url);
      }
    }
    assert links[..|links|] == links;
  }
}
