/** Resolving a logical model to its fallback chain: explicit routes, then provider prefixes. Text is its
    UTF-8 bytes, so lengths and prefixes are the program's. */
module Router {
  import opened Common

  type Text = Bytes

  const SLASH: Byte := 47

  datatype Target = Target(provider: Text, model: Option<Text>)
  datatype RouteConfig = RouteConfig(model: Text, targets: seq<Target>)
  datatype ProviderConfig = ProviderConfig(name: Text, prefix: Option<Text>)

  /** A provider's claim on the models below a prefix. */
  datatype Claim = Claim(prefix: Text, provider: Text)

  /** `<prefix>/<rest>` with a non-empty rest. */
  function StripNamespace(model: Text, prefix: Text): Option<Text> {
    if prefix <= model && |prefix| < |model| && model[|prefix|] == SLASH && model[|prefix| + 1..] != []
    then Some(model[|prefix| + 1..]) else None
  }

  // ---- Building ---------------------------------------------------------------------------------

  function Table(routes: seq<RouteConfig>): map<Text, seq<Target>> {
    if routes == [] then map[]
    else
      var last := routes[|routes| - 1];
      Table(routes[..|routes| - 1])[last.model := last.targets]
  }

  function Claims(providers: seq<ProviderConfig>): seq<Claim> {
    if providers == [] then []
    else
      (if providers[0].prefix.Some? then [Claim(providers[0].prefix.value, providers[0].name)] else [])
      + Claims(providers[1..])
  }

  /** Stable sort, longest prefix first. */
  function SortClaims(claims: seq<Claim>): seq<Claim> {
    if claims == [] then [] else Insert(claims[0], SortClaims(claims[1..]))
  }

  function Insert(c: Claim, sorted: seq<Claim>): seq<Claim> {
    if sorted == [] || |c.prefix| >= |sorted[0].prefix| then [c] + sorted
    else [sorted[0]] + Insert(c, sorted[1..])
  }

  // ---- Resolving --------------------------------------------------------------------------------

  /** The first claim that matches. */
  function FirstMatch(claims: seq<Claim>, model: Text): Option<Claim> {
    if claims == [] then None
    else if StripNamespace(model, claims[0].prefix).Some? then Some(claims[0])
    else FirstMatch(claims[1..], model)
  }

  /** The single-target chain of a claim. */
  function Direct(c: Option<Claim>, model: Text): Option<seq<Target>> {
    if c.None? then None else Some([Target(c.value.provider, StripNamespace(model, c.value.prefix))])
  }

  function Resolution(routes: seq<RouteConfig>, providers: seq<ProviderConfig>, model: Text): Option<seq<Target>> {
    if model in Table(routes) then Some(Table(routes)[model])
    else Direct(FirstMatch(SortClaims(Claims(providers)), model), model)
  }

  class Router {
    var table: map<Text, seq<Target>>
    var prefixes: seq<Claim>

    constructor (routes: seq<RouteConfig>, providers: seq<ProviderConfig>)
      ensures table == Table(routes) && prefixes == SortClaims(Claims(providers))
    {
      var t: map<Text, seq<Target>> := map[];
      for k := 0 to |routes|
        invariant t == Table(routes[..k])
      {
        assert routes[..k + 1][..k] == routes[..k];
        t := t[routes[k].model := routes[k].targets];
      }
      assert routes[..|routes|] == routes;
      table := t;
      prefixes := SortClaims(Claims(providers));
    }

    method Resolve(model: Text) returns (r: Option<seq<Target>>)
      ensures r == if model in table then Some(table[model]) else Direct(FirstMatch(prefixes, model), model)
    {
      if model in table { return Some(table[model]); }
      for k := 0 to |prefixes|
        invariant FirstMatch(prefixes[k..], model) == FirstMatch(prefixes, model)
      {
        var upstream := StripNamespace(model, prefixes[k].prefix);
        assert prefixes[k..][1..] == prefixes[k + 1..];
        if upstream.Some? { return Some([Target(prefixes[k].provider, upstream)]); }
      }
      r := None;
    }
  }

  // ---- What it means ----------------------------------------------------------------------------

  lemma StripExact(model: Text, prefix: Text, rest: Text)
    ensures StripNamespace(model, prefix) == Some(rest) <==> rest != [] && model == prefix + [SLASH] + rest
  {
    if StripNamespace(model, prefix) == Some(rest) {
      assert model == model[..|prefix|] + [model[|prefix|]] + model[|prefix| + 1..];
    }
    if model == prefix + [SLASH] + rest {
      assert model[|prefix| + 1..] == rest;
    }
  }

  predicate Matches(c: Claim, model: Text) { StripNamespace(model, c.prefix).Some? }

  /** Claim `k` is the most specific: no matching prefix is longer, and none as long was declared before. */
  predicate Wins(claims: seq<Claim>, k: nat, model: Text)
    requires k < |claims|
  {
    && Matches(claims[k], model)
    && forall j :: 0 <= j < |claims| && Matches(claims[j], model) ==>
         |claims[j].prefix| < |claims[k].prefix| || (|claims[j].prefix| == |claims[k].prefix| && k <= j)
  }

  predicate Sorted(claims: seq<Claim>) {
    forall i, j :: 0 <= i < j < |claims| ==> |claims[i].prefix| >= |claims[j].prefix|
  }

  lemma {:induction false} InsertKeeps(c: Claim, s: seq<Claim>)
    ensures multiset(Insert(c, s)) == multiset{c} + multiset(s)
    decreases |s|
  {
    if s != [] && |c.prefix| < |s[0].prefix| {
      assert s == [s[0]] + s[1..];
      InsertKeeps(c, s[1..]);
    }
  }

  lemma {:induction false} InsertBelow(c: Claim, s: seq<Claim>, n: nat)
    requires |c.prefix| <= n && forall i :: 0 <= i < |s| ==> |s[i].prefix| <= n
    ensures forall i :: 0 <= i < |Insert(c, s)| ==> |Insert(c, s)[i].prefix| <= n
    decreases |s|
  {
    if s != [] && |c.prefix| < |s[0].prefix| { InsertBelow(c, s[1..], n); }
  }

  lemma {:induction false} InsertSorted(c: Claim, s: seq<Claim>)
    requires Sorted(s)
    ensures Sorted(Insert(c, s))
    decreases |s|
  {
    if s == [] || |c.prefix| >= |s[0].prefix| {
      SortedCons(c, s);
    } else {
      InsertSorted(c, s[1..]);
      InsertBelow(c, s[1..], |s[0].prefix|);
      SortedCons(s[0], Insert(c, s[1..]));
    }
  }

  lemma SortedCons(c: Claim, s: seq<Claim>)
    requires Sorted(s) && forall i :: 0 <= i < |s| ==> |c.prefix| >= |s[i].prefix|
    ensures Sorted([c] + s)
  {
  }

  lemma {:induction false} SortIsSorted(claims: seq<Claim>)
    ensures Sorted(SortClaims(claims)) && multiset(SortClaims(claims)) == multiset(claims)
    decreases |claims|
  {
    if claims != [] {
      SortIsSorted(claims[1..]);
      InsertSorted(claims[0], SortClaims(claims[1..]));
      InsertKeeps(claims[0], SortClaims(claims[1..]));
      assert claims == [claims[0]] + claims[1..];
    }
  }

  /** The better of a claim and the best of the claims declared after it. */
  function Better(c: Claim, m: Option<Claim>, model: Text): Option<Claim> {
    if Matches(c, model) && (m.None? || |c.prefix| >= |m.value.prefix|) then Some(c) else m
  }

  lemma {:induction false} InsertMatches(c: Claim, s: seq<Claim>, model: Text)
    requires Sorted(s)
    ensures FirstMatch(Insert(c, s), model) == Better(c, FirstMatch(s, model), model)
    decreases |s|
  {
    if s == [] {
      assert [c] + s == [c] && [c][1..] == [];
    } else if |c.prefix| >= |s[0].prefix| {
      MatchIn(s, model);
      assert ([c] + s)[1..] == s;
    } else {
      InsertMatches(c, s[1..], model);
      assert ([s[0]] + Insert(c, s[1..]))[1..] == Insert(c, s[1..]);
    }
  }

  lemma {:induction false} MatchIn(s: seq<Claim>, model: Text)
    ensures FirstMatch(s, model).Some? ==> FirstMatch(s, model).value in s
    decreases |s|
  {
    if s != [] { MatchIn(s[1..], model); }
  }

  /** Claim `k` is the one found, or none matches. */
  ghost predicate Found(claims: seq<Claim>, m: Option<Claim>, k: nat, model: Text) {
    if m.Some? then k < |claims| && Wins(claims, k, model) && m == Some(claims[k])
    else forall j :: 0 <= j < |claims| ==> !Matches(claims[j], model)
  }

  lemma FoundCons(c: Claim, rest: seq<Claim>, m: Option<Claim>, i: nat, model: Text) returns (k: nat)
    requires Found(rest, m, i, model)
    ensures Found([c] + rest, Better(c, m, model), k, model)
  {
    var claims := [c] + rest;
    assert forall j :: 1 <= j < |claims| ==> claims[j] == rest[j - 1];
    k := if Better(c, m, model) == Some(c) && Matches(c, model) && (m.None? || |c.prefix| >= |m.value.prefix|) then 0
         else i + 1;
  }

  /** Sorting then taking the first match finds the most specific claim, or that there is none. */
  lemma {:induction false} SortedFirstMatchWins(claims: seq<Claim>, model: Text) returns (k: nat)
    ensures Found(claims, FirstMatch(SortClaims(claims), model), k, model)
    decreases |claims|
  {
    k := 0;
    if claims != [] {
      var i := SortedFirstMatchWins(claims[1..], model);
      SortIsSorted(claims[1..]);
      InsertMatches(claims[0], SortClaims(claims[1..]), model);
      k := FoundCons(claims[0], claims[1..], FirstMatch(SortClaims(claims[1..]), model), i, model);
      assert claims == [claims[0]] + claims[1..];
    }
  }

  /** The last explicit route for a model wins over every prefix. */
  lemma {:induction false} LastRoute(routes: seq<RouteConfig>, model: Text) returns (k: nat)
    ensures model in Table(routes) <==> exists j :: 0 <= j < |routes| && routes[j].model == model
    ensures model in Table(routes) ==>
              k < |routes| && routes[k].model == model && Table(routes)[model] == routes[k].targets
              && forall j :: k < j < |routes| ==> routes[j].model != model
    decreases |routes|
  {
    k := 0;
    if routes != [] {
      var n := |routes| - 1;
      k := LastRoute(routes[..n], model);
      if routes[n].model == model { k := n; }
    }
  }

  /** Route `k` is the last one declared for the model, and `r` its chain. */
  predicate ByRoute(routes: seq<RouteConfig>, k: nat, model: Text, r: Option<seq<Target>>) {
    && k < |routes| && routes[k].model == model && r == Some(routes[k].targets)
    && forall j :: k < j < |routes| ==> routes[j].model != model
  }

  /** What provider `k` claims matches the model. */
  predicate Claimed(providers: seq<ProviderConfig>, k: nat, model: Text)
    requires k < |providers|
  {
    var prefix := providers[k].prefix;
    prefix.Some? && prefix.value + [SLASH] < model && model[..|prefix.value| + 1] == prefix.value + [SLASH]
  }

  /** Provider `k` is preferred to provider `j`: a longer prefix, or one as long and declared no later. */
  predicate Preferred(providers: seq<ProviderConfig>, k: nat, j: nat) {
    && k < |providers| && j < |providers| && providers[k].prefix.Some? && providers[j].prefix.Some?
    && var mine, other := |providers[k].prefix.value|, |providers[j].prefix.value|;
       other < mine || (other == mine && k <= j)
  }

  /** Provider `k` has the longest prefix that matches, the first declared of those as long, and `r` addresses it
      with the rest of the model. */
  predicate ByProvider(providers: seq<ProviderConfig>, k: nat, rest: Text, model: Text, r: Option<seq<Target>>) {
    && k < |providers| && Claimed(providers, k, model)
    && (forall j: nat :: j < |providers| && Claimed(providers, j, model) ==> Preferred(providers, k, j))
    && rest != [] && model == providers[k].prefix.value + [SLASH] + rest
    && r == Some([Target(providers[k].name, Some(rest))])
  }

  predicate Routed(routes: seq<RouteConfig>, model: Text) {
    exists j :: 0 <= j < |routes| && routes[j].model == model
  }

  predicate Unclaimed(providers: seq<ProviderConfig>, model: Text) {
    forall j: nat :: j < |providers| ==> !Claimed(providers, j, model)
  }

  lemma ClaimedIffMatches(providers: seq<ProviderConfig>, k: nat, model: Text)
    requires k < |providers| && providers[k].prefix.Some?
    ensures Claimed(providers, k, model) <==> StripNamespace(model, providers[k].prefix.value).Some?
  {
    var prefix := providers[k].prefix.value;
    if StripNamespace(model, prefix).Some? {
      StripExact(model, prefix, StripNamespace(model, prefix).value);
    }
    if Claimed(providers, k, model) {
      StripExact(model, prefix, model[|prefix| + 1..]);
    }
  }

  /** The claim found is that of provider `k`, preferred to all that match, or there is none. */
  ghost predicate Chosen(providers: seq<ProviderConfig>, m: Option<Claim>, k: nat, model: Text) {
    if m.None? then Unclaimed(providers, model)
    else
      && k < |providers| && Claimed(providers, k, model)
      && m.value == Claim(providers[k].prefix.value, providers[k].name)
      && forall j: nat :: j < |providers| && Claimed(providers, j, model) ==> Preferred(providers, k, j)
  }

  /** Declaring one more provider in front moves every other one place back. */
  lemma ClaimedNext(p: ProviderConfig, rest: seq<ProviderConfig>, j: nat, model: Text)
    requires j < |rest|
    ensures Claimed([p] + rest, j + 1, model) == Claimed(rest, j, model)
  {
    assert ([p] + rest)[j + 1] == rest[j];
  }

  lemma ChosenNext(p: ProviderConfig, rest: seq<ProviderConfig>, m: Option<Claim>, k: nat, model: Text)
    requires Chosen(rest, m, k, model) && !Claimed([p] + rest, 0, model)
    ensures Chosen([p] + rest, m, k + 1, model)
  {
    var all := [p] + rest;
    forall j: nat | j < |all| && Claimed(all, j, model) ensures m.Some? && Preferred(all, k + 1, j) {
      ClaimedNext(p, rest, j - 1, model);
      assert Preferred(rest, k, j - 1);
    }
    if m.Some? { ClaimedNext(p, rest, k, model); }
  }

  lemma ChosenFirst(p: ProviderConfig, rest: seq<ProviderConfig>, m: Option<Claim>, k: nat, model: Text)
    returns (k': nat)
    requires Chosen(rest, m, k, model) && Claimed([p] + rest, 0, model)
    ensures Chosen([p] + rest, Better(Claim(p.prefix.value, p.name), m, model), k', model)
  {
    var all, c := [p] + rest, Claim(p.prefix.value, p.name);
    ClaimedIffMatches(all, 0, model);
    k' := if m.None? || |c.prefix| >= |m.value.prefix| then 0 else k + 1;
    forall j: nat | j < |all| && Claimed(all, j, model) ensures Preferred(all, k', j) {
      if j > 0 {
        ClaimedNext(p, rest, j - 1, model);
        assert m.Some? && Preferred(rest, k, j - 1);
      }
    }
    if m.Some? { ClaimedNext(p, rest, k, model); }
  }

  lemma {:induction false} FirstProvider(providers: seq<ProviderConfig>, model: Text) returns (k: nat)
    ensures Chosen(providers, FirstMatch(SortClaims(Claims(providers)), model), k, model)
    decreases |providers|
  {
    k := 0;
    if providers != [] {
      var p, rest := providers[0], providers[1..];
      var claims := Claims(rest);
      var m := FirstMatch(SortClaims(claims), model);
      k := FirstProvider(rest, model);
      assert providers == [p] + rest;
      if p.prefix.Some? {
        var c := Claim(p.prefix.value, p.name);
        assert ([c] + claims)[1..] == claims;
        SortIsSorted(claims);
        InsertMatches(c, SortClaims(claims), model);
        ClaimedIffMatches(providers, 0, model);
      } else {
        assert [] + claims == claims;
      }
      if Claimed(providers, 0, model) {
        k := ChosenFirst(p, rest, m, k, model);
      } else {
        ChosenNext(p, rest, m, k, model);
        k := k + 1;
      }
    }
  }

  /** An explicit route resolves to its last declaration; otherwise the provider with the longest matching prefix,
      the first declared of those as long, gets the rest of the model; otherwise nothing matches. */
  lemma ResolvesMostSpecific(routes: seq<RouteConfig>, providers: seq<ProviderConfig>, model: Text)
    ensures var r := Resolution(routes, providers, model);
            && (Routed(routes, model) ==> exists k :: ByRoute(routes, k, model, r))
            && (!Routed(routes, model) && r.Some? ==> exists k, rest :: ByProvider(providers, k, rest, model, r))
            && (!Routed(routes, model) && r.None? ==> Unclaimed(providers, model))
  {
    var k := LastRoute(routes, model);
    if Routed(routes, model) {
      assert ByRoute(routes, k, model, Resolution(routes, providers, model));
    } else {
      ResolvesProvider(routes, providers, model);
    }
  }

  lemma ResolvesProvider(routes: seq<RouteConfig>, providers: seq<ProviderConfig>, model: Text)
    requires model !in Table(routes)
    ensures var r := Resolution(routes, providers, model);
            if r.Some? then exists k, rest :: ByProvider(providers, k, rest, model, r) else Unclaimed(providers, model)
  {
    var r := Resolution(routes, providers, model);
    var k := FirstProvider(providers, model);
    if r.Some? {
      var prefix := providers[k].prefix.value;
      ClaimedIffMatches(providers, k, model);
      var rest := StripNamespace(model, prefix).value;
      StripExact(model, prefix, rest);
      assert ByProvider(providers, k, rest, model, r);
    }
  }

  // ---- Order does not matter --------------------------------------------------------------------

  /** Two claims that both match with prefixes of one length have the same prefix. */
  lemma SameLengthSamePrefix(a: Claim, b: Claim, model: Text)
    requires Matches(a, model) && Matches(b, model) && |a.prefix| == |b.prefix|
    ensures a.prefix == b.prefix
  {
    assert a.prefix == model[..|a.prefix|] && b.prefix == model[..|b.prefix|];
  }

  lemma {:induction false} ClaimsFrom(providers: seq<ProviderConfig>, c: Claim)
    ensures c in Claims(providers) <==> ProviderConfig(c.provider, Some(c.prefix)) in providers
    decreases |providers|
  {
    if providers != [] {
      ClaimsFrom(providers[1..], c);
      assert providers == [providers[0]] + providers[1..];
    }
  }

  /** With one claim per prefix and one chain per model, declarations can be permuted and repeated freely. */
  lemma OrderIrrelevant(routes: seq<RouteConfig>, routes': seq<RouteConfig>,
                        providers: seq<ProviderConfig>, providers': seq<ProviderConfig>, model: Text)
    requires forall r :: r in routes <==> r in routes'
    requires forall p :: p in providers <==> p in providers'
    requires forall r, s :: r in routes && s in routes && r.model == s.model ==> r == s
    requires forall p, q :: p in providers && q in providers && p.prefix == q.prefix && p.prefix.Some? ==> p == q
    ensures Resolution(routes, providers, model) == Resolution(routes', providers', model)
  {
    var k := LastRoute(routes, model);
    var k' := LastRoute(routes', model);
    assert forall j :: 0 <= j < |routes| ==> routes[j] in routes';
    assert forall j :: 0 <= j < |routes'| ==> routes'[j] in routes;
    if model in Table(routes) {
      assert routes[k] in routes' && routes'[k'] in routes;
    } else {
      SameWinner(providers, providers', model);
    }
  }

  lemma SameWinner(providers: seq<ProviderConfig>, providers': seq<ProviderConfig>, model: Text)
    requires forall p :: p in providers <==> p in providers'
    requires forall p, q :: p in providers && q in providers && p.prefix == q.prefix && p.prefix.Some? ==> p == q
    ensures FirstMatch(SortClaims(Claims(providers)), model) == FirstMatch(SortClaims(Claims(providers')), model)
  {
    var claims, claims' := Claims(providers), Claims(providers');
    var w := SortedFirstMatchWins(claims, model);
    var w' := SortedFirstMatchWins(claims', model);
    forall c ensures c in claims <==> c in claims' {
      ClaimsFrom(providers, c);
      ClaimsFrom(providers', c);
    }
    var m, m' := FirstMatch(SortClaims(claims), model), FirstMatch(SortClaims(claims'), model);
    if m.Some? { assert claims[w] in claims'; }
    if m'.Some? { assert claims'[w'] in claims; }
    if m.Some? && m'.Some? {
      SameLengthSamePrefix(m.value, m'.value, model);
      ClaimsFrom(providers, m.value);
      ClaimsFrom(providers, m'.value);
    }
  }
}
