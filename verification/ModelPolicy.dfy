/** Which local model an execution uses, and which one it falls back to. */
module ModelPolicy {
  import opened Basics
  import opened TextOrder

  // ---------- Names ----------

  const CLOUD_EXECUTION_MODELS := {"claude-tech-lead", "Claude \U{b7} Tech Lead", "Claude PO"}
  const CLOUD_PROVIDER_PREFIXES := {"anthropic", "openai", "google", "gemini", "openrouter", "together", "fireworks"}
  const DEFAULT_DEV_TEAM := "qwen3-coder-next"

  predicate Blank(s: string) {
    Strip(s) == ""
  }

  lemma {:induction false} StripLeftKeeps(s: string)
    ensures forall c :: c in s && !IsSpace(c) ==> c in StripLeft(s)
    ensures StripLeft(s) != "" ==> !IsSpace(StripLeft(s)[0])
  {
    if s != "" && IsSpace(s[0]) {
      StripLeftKeeps(s[1..]);
      assert s == [s[0]] + s[1..];
    }
  }

  lemma {:induction false} StripRightKeeps(s: string)
    requires s != "" && !IsSpace(s[0])
    ensures StripRight(s) != ""
  {
    if IsSpace(s[|s| - 1]) {
      StripRightKeeps(s[..|s| - 1]);
    }
  }

  lemma {:induction false} StripLeftOfBlank(s: string)
    requires forall c :: c in s ==> IsSpace(c)
    ensures StripLeft(s) == ""
  {
    if s != "" {
      StripLeftOfBlank(s[1..]);
    }
  }

  lemma BlankIff(s: string)
    ensures Blank(s) <==> forall c :: c in s ==> IsSpace(c)
  {
    if forall c :: c in s ==> IsSpace(c) {
      StripLeftOfBlank(s);
    } else {
      StripLeftKeeps(s);
      StripRightKeeps(StripLeft(s));
    }
  }

  /** The only characters whose lower case is an ASCII letter: A to Z, and the Kelvin sign. */
  function LowerChar(c: char): char {
    if 'A' <= c <= 'Z' then c - 'A' + 'a' else if c == '\U{212a}' then 'k' else c
  }

  function Lower(s: string): (r: string)
    ensures |r| == |s|
  {
    seq(|s|, i requires 0 <= i < |s| => LowerChar(s[i]))
  }

  /** The part of model before its first colon, if it has one. */
  function Provider(model: string): Option<string> {
    if model == "" then None
    else if model[0] == ':' then Some("")
    else
      match Provider(model[1..])
      case None => None
      case Some(p) => Some([model[0]] + p)
  }

  predicate IsCloudReasonerModel(model: string) {
    && !Blank(model)
    && (model in CLOUD_EXECUTION_MODELS
        || (Provider(model).Some? && Lower(Strip(Provider(model).value)) in CLOUD_PROVIDER_PREFIXES))
  }

  lemma {:induction false} ProviderEndsAtTheColon(model: string, p: string)
    ensures Provider(model) == Some(p) <==> ':' !in p && p + ":" <= model
    ensures Provider(model).None? <==> ':' !in model
  {
    if model != "" {
      if model[0] == ':' {
        assert p != "" && p + ":" <= model ==> p[0] == ':';
      } else {
        if p != "" {
          ProviderEndsAtTheColon(model[1..], p[1..]);
          assert (p + ":")[1..] == p[1..] + ":";
          assert p == [p[0]] + p[1..];
          assert p + ":" <= model <==> p[0] == model[0] && p[1..] + ":" <= model[1..];
        } else {
          ProviderEndsAtTheColon(model[1..], "");
        }
      }
    }
  }

  /** The word in capital or small letters, each of them either; the Kelvin sign counts as a K. */
  predicate Spells(name: string, word: string) {
    |name| == |word|
      && forall i :: 0 <= i < |word| ==>
           name[i] == word[i] || name[i] as int == word[i] as int - 32 || (word[i] == 'k' && name[i] as int == 8490)
  }

  lemma LowerIff(name: string, word: string)
    requires forall i :: 0 <= i < |word| ==> 'a' <= word[i] <= 'z'
    ensures Lower(name) == word <==> Spells(name, word)
  {
    forall i | 0 <= i < |word| && |name| == |word|
      ensures LowerChar(name[i]) == word[i]
        <==> name[i] == word[i] || name[i] as int == word[i] as int - 32
             || (word[i] == 'k' && name[i] as int == 8490)
    {
    }
    assert |name| == |word| && (forall i :: 0 <= i < |word| ==> LowerChar(name[i]) == word[i]) ==> Lower(name) == word;
  }

  predicate NamesCloudVendor(name: string) {
    || Spells(name, "anthropic") || Spells(name, "openai") || Spells(name, "google") || Spells(name, "gemini")
    || Spells(name, "openrouter") || Spells(name, "together") || Spells(name, "fireworks")
  }

  lemma CloudVendorIff(name: string)
    ensures NamesCloudVendor(name) <==> Lower(name) in CLOUD_PROVIDER_PREFIXES
  {
    LowerIff(name, "anthropic");
    LowerIff(name, "openai");
    LowerIff(name, "google");
    LowerIff(name, "gemini");
    LowerIff(name, "openrouter");
    LowerIff(name, "together");
    LowerIff(name, "fireworks");
  }

  predicate IsCloudAlias(model: string) {
    model == "claude-tech-lead" || model == "Claude \U{b7} Tech Lead" || model == "Claude PO"
  }

  lemma AliasIff(model: string)
    ensures IsCloudAlias(model) <==> model in CLOUD_EXECUTION_MODELS
    ensures IsCloudAlias(model) ==> !Blank(model)
  {
    BlankIff(model);
    if IsCloudAlias(model) {
      assert model[0] == 'c' || model[0] == 'C';
    }
  }

  ghost predicate HasCloudVendor(model: string, provider: string) {
    ':' !in provider && provider + ":" <= model && NamesCloudVendor(Strip(provider))
  }

  lemma VendorIff(model: string, provider: string)
    ensures HasCloudVendor(model, provider)
      <==> Provider(model) == Some(provider) && Lower(Strip(provider)) in CLOUD_PROVIDER_PREFIXES
    ensures HasCloudVendor(model, provider) ==> !Blank(model)
  {
    ProviderEndsAtTheColon(model, provider);
    CloudVendorIff(Strip(provider));
    BlankIff(model);
    if HasCloudVendor(model, provider) {
      assert model[|provider|] == ':';
    }
  }

  /** A cloud model is one of the three aliases, or an id with a vendor of the list before its first colon, written
      in either case and with white space around it. */
  lemma CloudModelIff(model: string)
    ensures IsCloudReasonerModel(model)
      <==> IsCloudAlias(model) || exists provider :: HasCloudVendor(model, provider)
  {
    AliasIff(model);
    forall provider
      ensures HasCloudVendor(model, provider)
        <==> Provider(model) == Some(provider) && Lower(Strip(provider)) in CLOUD_PROVIDER_PREFIXES
      ensures HasCloudVendor(model, provider) ==> !Blank(model)
    {
      VendorIff(model, provider);
    }
    if Provider(model).Some? {
      VendorIff(model, Provider(model).value);
    }
  }

  /** Ids of loaded models have no provider prefix, so only the legacy aliases among them are cloud models. */
  lemma LoadedIdsAreNotCloud(model: string)
    requires ':' !in model && model !in CLOUD_EXECUTION_MODELS
    ensures !IsCloudReasonerModel(model)
  {
    ProviderEndsAtTheColon(model, "");
  }

  /** The model id without its vendor prefix: what follows the last slash. */
  function BareModel(model: string): string {
    if model == "" || model[|model| - 1] == '/' then ""
    else BareModel(model[..|model| - 1]) + [model[|model| - 1]]
  }

  lemma {:induction false} BareModelIsTheLastPart(model: string) returns (vendor: string)
    ensures '/' !in BareModel(model)
    ensures '/' !in model ==> BareModel(model) == model
    ensures '/' in model ==> model == vendor + "/" + BareModel(model)
  {
    if model == "" {
      vendor := "";
    } else {
      var front, last := model[..|model| - 1], model[|model| - 1];
      assert model == front + [last];
      if last == '/' {
        vendor := front;
      } else {
        vendor := BareModelIsTheLastPart(front);
      }
    }
  }

  // ---------- Resolution ----------

  datatype Routing = Unset | One(model: string) | Many(models: seq<string>)

  /** The models known to be loaded, in the order in which iterating over their set visits them; the models
      routed to the development team; and the test for cloud models. */
  datatype Policy = Policy(known: seq<string>, devTeam: Routing, isCloud: string -> bool)

  function LocalPolicy(known: seq<string>, devTeam: Routing): Policy {
    Policy(known, devTeam, IsCloudReasonerModel)
  }

  predicate ValidPolicy(p: Policy) {
    NoDuplicates(p.known)
  }

  function FirstBareMatch(p: Policy, models: seq<string>, bare: string): (r: Option<string>)
    ensures r.Some? ==> r.value in models && !p.isCloud(r.value) && BareModel(r.value) == bare
    ensures r.None? ==> forall m :: m in models && !p.isCloud(m) ==> BareModel(m) != bare
  {
    if models == [] then None
    else if !p.isCloud(models[0]) && BareModel(models[0]) == bare then Some(models[0])
    else FirstBareMatch(p, models[1..], bare)
  }

  function ResolveLocalModel(p: Policy, candidate: string): Option<string> {
    if Blank(candidate) || p.isCloud(candidate) then None
    else if candidate in p.known then Some(candidate)
    else FirstBareMatch(p, p.known, BareModel(candidate))
  }

  /** resolve(model) or model; the empty string counts as no answer. */
  function Effective(p: Policy, model: string): string {
    match ResolveLocalModel(p, model)
    case Some(m) => if m == "" then model else m
    case None => model
  }

  /** Model i is the first loaded local one with the bare name of candidate. */
  predicate FirstOfItsName(p: Policy, candidate: string, i: nat)
    requires i < |p.known|
  {
    && !p.isCloud(p.known[i]) && BareModel(p.known[i]) == BareModel(candidate)
    && forall j :: 0 <= j < i ==> p.isCloud(p.known[j]) || BareModel(p.known[j]) != BareModel(candidate)
  }

  lemma {:induction false} FirstBareMatchIs(p: Policy, models: seq<string>, bare: string) returns (i: nat)
    ensures FirstBareMatch(p, models, bare).None? ==> i == |models|
    ensures FirstBareMatch(p, models, bare).Some? ==>
              i < |models| && models[i] == FirstBareMatch(p, models, bare).value
              && forall j :: 0 <= j < i ==> p.isCloud(models[j]) || BareModel(models[j]) != bare
  {
    if models == [] || (!p.isCloud(models[0]) && BareModel(models[0]) == bare) {
      i := 0;
    } else {
      i := FirstBareMatchIs(p, models[1..], bare);
      i := i + 1;
    }
  }

  /** Only a local id that is not blank resolves: to itself when it is loaded, and otherwise to the first loaded
      local model with its bare name. It fails to resolve only without such a model. */
  lemma ResolveFindsTheModel(p: Policy, candidate: string)
    ensures match ResolveLocalModel(p, candidate)
            case Some(m) =>
              && (exists c :: c in candidate && !IsSpace(c)) && !p.isCloud(candidate)
              && (candidate in p.known ==> m == candidate)
              && (candidate !in p.known ==>
                    exists i :: 0 <= i < |p.known| && m == p.known[i] && FirstOfItsName(p, candidate, i))
            case None =>
              || (forall c :: c in candidate ==> IsSpace(c))
              || p.isCloud(candidate)
              || (candidate !in p.known
                  && forall m :: m in p.known && !p.isCloud(m) ==> BareModel(m) != BareModel(candidate))
  {
    BlankIff(candidate);
    var i := FirstBareMatchIs(p, p.known, BareModel(candidate));
  }

  /** Resolving is idempotent, except for a loaded model whose id is blank. */
  lemma ResolveTwice(p: Policy, candidate: string)
    requires ResolveLocalModel(p, candidate).Some?
    ensures var m := ResolveLocalModel(p, candidate).value;
            ResolveLocalModel(p, m) == Some(m) <==> !Blank(m)
  {
  }

  // ---------- The fallback chain ----------

  /** What the routing store holds for the development team, or the default when that is empty. */
  function Candidates(p: Policy): seq<string> {
    match p.devTeam
    case Unset => [DEFAULT_DEV_TEAM]
    case One(model) => if model == "" then [DEFAULT_DEV_TEAM] else [model]
    case Many(models) => if models == [] then [DEFAULT_DEV_TEAM] else models
  }

  function ResolveAll(p: Policy, candidates: seq<string>): seq<string> {
    if candidates == [] then []
    else
      var earlier := ResolveAll(p, candidates[..|candidates| - 1]);
      match ResolveLocalModel(p, candidates[|candidates| - 1])
      case None => earlier
      case Some(m) => earlier + [m]
  }

  function RoutedChain(p: Policy): seq<string> {
    Distinct(ResolveAll(p, Candidates(p) + [DEFAULT_DEV_TEAM]))
  }

  function InsertName(s: seq<string>, x: string): seq<string> {
    if s == [] || AtMost(x, s[0]) then [x] + s else [s[0]] + InsertName(s[1..], x)
  }

  function SortNames(s: seq<string>): seq<string> {
    if s == [] then [] else InsertName(SortNames(s[1..]), s[0])
  }

  function FallbackChain(p: Policy): seq<string> {
    var chain := RoutedChain(p);
    if chain != [] then chain else SortNames(p.known)
  }

  function AddResolved(p: Policy, chain: seq<string>, candidate: string): seq<string> {
    match ResolveLocalModel(p, candidate)
    case None => chain
    case Some(m) => if m in chain then chain else chain + [m]
  }

  /** The chain after the first k candidates. */
  function Gather(p: Policy, candidates: seq<string>, k: nat): seq<string>
    requires k <= |candidates|
  {
    if k == 0 then [] else AddResolved(p, Gather(p, candidates, k - 1), candidates[k - 1])
  }

  lemma {:induction false} GatherIsDistinct(p: Policy, candidates: seq<string>, k: nat)
    requires k <= |candidates|
    ensures Gather(p, candidates, k) == Distinct(ResolveAll(p, candidates[..k]))
  {
    if k > 0 {
      GatherIsDistinct(p, candidates, k - 1);
      assert candidates[..k][..k - 1] == candidates[..k - 1];
      var all := ResolveAll(p, candidates[..k - 1]);
      var resolved := ResolveLocalModel(p, candidates[k - 1]);
      if resolved.Some? {
        assert (all + [resolved.value])[..|all|] == all;
      }
    }
  }

  lemma {:induction false} GatherOfPrefix(p: Policy, candidates: seq<string>, last: string, k: nat)
    requires k <= |candidates|
    ensures Gather(p, candidates + [last], k) == Gather(p, candidates, k)
  {
    if k > 0 {
      GatherOfPrefix(p, candidates, last, k - 1);
    }
  }

  lemma GatheredChain(p: Policy)
    ensures RoutedChain(p) == AddResolved(p, Gather(p, Candidates(p), |Candidates(p)|), DEFAULT_DEV_TEAM)
  {
    var candidates := Candidates(p);
    var all := candidates + [DEFAULT_DEV_TEAM];
    GatherIsDistinct(p, all, |all|);
    assert all[..|all|] == all;
    GatherOfPrefix(p, candidates, DEFAULT_DEV_TEAM, |candidates|);
  }

  method ResolvedCandidates(p: Policy, candidates: seq<string>) returns (chain: seq<string>)
    ensures chain == Gather(p, candidates, |candidates|)
  {
    chain := [];
    var k := 0;
    while k < |candidates|
      invariant 0 <= k <= |candidates|
      invariant chain == Gather(p, candidates, k)
    {
      var resolved := ResolveLocalModel(p, candidates[k]);
      if resolved.Some? && resolved.value !in chain {
        chain := chain + [resolved.value];
      }
      k := k + 1;
    }
  }

  method LocalModelFallbackChain(p: Policy) returns (chain: seq<string>)
    ensures chain == FallbackChain(p)
    ensures forall models :: RoutedTo(p, models) ==> ChainOf(p, models, chain)
  {
    chain := ResolvedCandidates(p, Candidates(p));
    var fallback := ResolveLocalModel(p, DEFAULT_DEV_TEAM);
    if fallback.Some? && fallback.value !in chain {
      chain := chain + [fallback.value];
    }
    GatheredChain(p);
    forall models | RoutedTo(p, models) ensures ChainOf(p, models, FallbackChain(p)) {
      FallbackChainIsOf(p, models);
    }
    if chain == [] {
      chain := SortNames(p.known);
    }
  }

  method NextLocalFallbackModel(p: Policy, currentModel: string) returns (next: Option<string>)
    requires ValidPolicy(p)
    ensures var rest := RemainingModels(p, currentModel);
            next == if rest == [] then None else Some(rest[0])
    ensures next == NextIn(FallbackChain(p), match ResolveLocalModel(p, currentModel)
                                             case Some(m) => if m != "" then m else currentModel
                                             case None => currentModel)
  {
    var chain := LocalModelFallbackChain(p);
    var resolvedCurrent := Effective(p, currentModel);
    if resolvedCurrent !in chain {
      return if chain != [] then Some(chain[0]) else None;
    }
    var index := FirstPosition(chain, resolvedCurrent);
    if index + 1 >= |chain| {
      return None;
    }
    return Some(chain[index + 1]);
  }

  /** The entry behind the first occurrence of the current one, or the first entry when there is none. */
  function NextIn(chain: seq<string>, current: string): Option<string> {
    var at := if current in chain then FirstPosition(chain, current) + 1 else 0;
    if at < |chain| then Some(chain[at]) else None
  }

  /** The models still to be tried when the current one gives up: those behind it in the chain, or the whole
      chain when it is not in it. */
  function RemainingModels(p: Policy, current: string): seq<string> {
    Behind(FallbackChain(p), Effective(p, current))
  }

  // ---------- Properties of the chain ----------

  lemma {:induction false} InsertNameKeeps(s: seq<string>, x: string)
    ensures multiset(InsertName(s, x)) == multiset(s) + multiset{x}
  {
    if s != [] && !AtMost(x, s[0]) {
      InsertNameKeeps(s[1..], x);
      assert s == [s[0]] + s[1..];
    }
  }

  lemma {:induction false} SortNamesKeeps(s: seq<string>)
    ensures multiset(SortNames(s)) == multiset(s)
  {
    if s != [] {
      SortNamesKeeps(s[1..]);
      InsertNameKeeps(SortNames(s[1..]), s[0]);
      assert s == [s[0]] + s[1..];
    }
  }

  predicate InOrder(s: seq<string>) {
    forall i, j :: 0 <= i < j < |s| ==> AtMost(s[i], s[j])
  }

  lemma {:induction false} InsertNameSorts(s: seq<string>, x: string)
    requires InOrder(s)
    ensures InOrder(InsertName(s, x))
  {
    if s != [] {
      if AtMost(x, s[0]) {
        forall j | 0 <= j < |s| ensures AtMost(x, s[j]) {
          if j > 0 {
            AtMostIsTransitive(x, s[0], s[j]);
          }
        }
      } else {
        InsertNameSorts(s[1..], x);
        AtMostIsTotal(x, s[0]);
        var r := InsertName(s[1..], x);
        InsertNameKeeps(s[1..], x);
        forall j | 0 <= j < |r| ensures AtMost(s[0], r[j]) {
          assert r[j] in multiset(r);
          assert r[j] == x || r[j] in s[1..];
        }
      }
    }
  }

  /** sorted() returns the same names in order. */
  lemma {:induction false} SortNamesSorts(s: seq<string>)
    ensures InOrder(SortNames(s)) && multiset(SortNames(s)) == multiset(s)
  {
    SortNamesKeeps(s);
    if s != [] {
      SortNamesSorts(s[1..]);
      InsertNameSorts(SortNames(s[1..]), s[0]);
    }
  }

  lemma {:induction false} DistinctByCounts(s: seq<string>)
    ensures NoDuplicates(s) <==> forall x :: x in multiset(s) ==> multiset(s)[x] == 1
  {
    if s != [] {
      var shorter, last := s[..|s| - 1], s[|s| - 1];
      assert s == shorter + [last];
      DistinctByCounts(shorter);
      if NoDuplicates(s) {
        assert last !in shorter;
      } else if NoDuplicates(shorter) {
        assert last in multiset(shorter);
        assert multiset(s)[last] != 1;
      } else {
        var x :| x in multiset(shorter) && multiset(shorter)[x] != 1;
        assert multiset(s)[x] != 1;
      }
    }
  }

  lemma {:induction false} ResolvedAreKnown(p: Policy, candidates: seq<string>)
    ensures forall m :: m in ResolveAll(p, candidates) ==> m in p.known && !p.isCloud(m)
  {
    if candidates != [] {
      ResolvedAreKnown(p, candidates[..|candidates| - 1]);
    }
  }

  /** No model is in the chain twice, all of them are loaded, and each stands for itself. */
  lemma ChainIsSound(p: Policy)
    requires ValidPolicy(p)
    ensures NoDuplicates(FallbackChain(p))
    ensures forall m :: m in FallbackChain(p) ==> m in p.known && Effective(p, m) == m
  {
    ResolvedAreKnown(p, Candidates(p) + [DEFAULT_DEV_TEAM]);
    SortNamesKeeps(p.known);
    DistinctByCounts(p.known);
    DistinctByCounts(SortNames(p.known));
    forall m | m in SortNames(p.known) ensures m in p.known {
      assert m in multiset(SortNames(p.known));
    }
  }

  lemma FirstPositionOfDistinct(s: seq<string>, i: nat)
    requires NoDuplicates(s) && i < |s|
    ensures FirstPosition(s, s[i]) == i
  {
  }

  /** The list behind the current entry, or all of it. */
  function Behind(chain: seq<string>, current: string): seq<string> {
    if current in chain then chain[FirstPosition(chain, current) + 1..] else chain
  }

  lemma BehindAdvances(chain: seq<string>, current: string)
    requires NoDuplicates(chain) && Behind(chain, current) != []
    ensures Behind(chain, current)[0] in chain
    ensures Behind(chain, Behind(chain, current)[0]) == Behind(chain, current)[1..]
  {
    var start := if current in chain then FirstPosition(chain, current) + 1 else 0;
    assert Behind(chain, current)[0] == chain[start];
    FirstPositionOfDistinct(chain, start);
  }

  /** Falling back takes the first remaining model and leaves the others to come. */
  lemma FallbackAdvances(p: Policy, current: string)
    requires ValidPolicy(p) && RemainingModels(p, current) != []
    ensures var rest := RemainingModels(p, current);
            RemainingModels(p, rest[0]) == rest[1..]
  {
    ChainIsSound(p);
    BehindAdvances(FallbackChain(p), Effective(p, current));
  }

  lemma BehindIsNew(chain: seq<string>, current: string)
    requires NoDuplicates(chain)
    ensures NoDuplicates(Behind(chain, current)) && current !in Behind(chain, current)
    ensures forall m :: m in Behind(chain, current) ==> m in chain
  {
    var rest := Behind(chain, current);
    if current in chain {
      var i := FirstPosition(chain, current);
      forall j | 0 <= j < |rest| ensures rest[j] != current {
        assert rest[j] == chain[i + 1 + j];
      }
    }
  }

  /** The models after the current one are all different, and the current one is not among them under either
      of its names: so no run tries a model twice. */
  lemma RemainingAreNew(p: Policy, current: string)
    requires ValidPolicy(p)
    ensures var rest := RemainingModels(p, current);
            && NoDuplicates(rest) && current !in rest && Effective(p, current) !in rest
            && forall m :: m in rest ==> Effective(p, m) == m
  {
    ChainIsSound(p);
    BehindIsNew(FallbackChain(p), Effective(p, current));
  }

  // ---------- Local models only ----------

  lemma {:induction false} ResolvedAreLocal(p: Policy, candidates: seq<string>)
    ensures forall m :: m in ResolveAll(p, candidates) ==> !p.isCloud(m)
  {
    if candidates != [] {
      ResolvedAreLocal(p, candidates[..|candidates| - 1]);
    }
  }

  /** All models of the chain are local exactly when some routed model resolves, or no loaded one is a cloud model:
      the last resort takes the loaded models as they are. */
  lemma ChainIsLocalIff(p: Policy)
    ensures (forall m :: m in FallbackChain(p) ==> !p.isCloud(m))
      <==> RoutedChain(p) != [] || forall m :: m in p.known ==> !p.isCloud(m)
  {
    ResolvedAreLocal(p, Candidates(p) + [DEFAULT_DEV_TEAM]);
    SortNamesKeeps(p.known);
    if RoutedChain(p) == [] {
      assert forall m :: m in p.known <==> m in multiset(p.known);
      assert forall m :: m in SortNames(p.known) <==> m in multiset(SortNames(p.known));
    }
  }

  /** With the repository's test for cloud models, loaded ids without a colon and no legacy alias among them,
      no run falls back to a cloud model. */
  lemma OrdinaryChainIsLocal(known: seq<string>, devTeam: Routing)
    requires forall m :: m in known ==> ':' !in m && m !in CLOUD_EXECUTION_MODELS
    ensures forall m :: m in FallbackChain(LocalPolicy(known, devTeam)) ==> !IsCloudReasonerModel(m)
  {
    forall m | m in known ensures !IsCloudReasonerModel(m) {
      LoadedIdsAreNotCloud(m);
    }
    ChainIsLocalIff(LocalPolicy(known, devTeam));
  }

  // ---------- The order of the chain ----------

  lemma {:induction false} ResolveAllOfPrefix(p: Policy, candidates: seq<string>, k: nat)
    requires k <= |candidates|
    ensures ResolveAll(p, candidates[..k]) <= ResolveAll(p, candidates)
  {
    if k < |candidates| {
      var fewer := candidates[..|candidates| - 1];
      ResolveAllOfPrefix(p, fewer, k);
      assert fewer[..k] == candidates[..k];
    } else {
      assert candidates[..k] == candidates;
    }
  }

  lemma {:induction false} ResolveAllHolds(p: Policy, candidates: seq<string>, m: string)
    ensures m in ResolveAll(p, candidates)
      <==> exists i :: 0 <= i < |candidates| && ResolveLocalModel(p, candidates[i]) == Some(m)
  {
    if candidates != [] {
      var fewer, last := candidates[..|candidates| - 1], |candidates| - 1;
      ResolveAllHolds(p, fewer, m);
      assert forall i :: 0 <= i < last ==> fewer[i] == candidates[i];
    }
  }

  /** The model with which candidate j comes in. */
  predicate NewAt(p: Policy, candidates: seq<string>, j: nat, m: string)
    requires j < |candidates|
  {
    && ResolveLocalModel(p, candidates[j]) == Some(m)
    && forall k :: 0 <= k < j ==> ResolveLocalModel(p, candidates[k]) != Some(m)
  }

  lemma EarlierComesFirst(p: Policy, candidates: seq<string>, i: nat, j: nat, a: string, b: string)
    requires i < j < |candidates| && ResolveLocalModel(p, candidates[i]) == Some(a) && NewAt(p, candidates, j, b)
    ensures var all := ResolveAll(p, candidates);
            a in all && b in all && FirstPosition(all, a) < FirstPosition(all, b)
  {
    var all, before := ResolveAll(p, candidates), ResolveAll(p, candidates[..j]);
    ResolveAllOfPrefix(p, candidates, j);
    ResolveAllHolds(p, candidates, a);
    ResolveAllHolds(p, candidates, b);
    assert candidates[..j][i] == candidates[i];
    ResolveAllHolds(p, candidates[..j], a);
    ResolveAllHolds(p, candidates[..j], b);
    var q := FirstPosition(all, b);
    assert forall k :: 0 <= k < |before| ==> before[k] == all[k];
    var r :| 0 <= r < |before| && before[r] == a;
    assert all[r] == a;
  }

  lemma OrderInDistinct(s: seq<string>, a: string, b: string)
    requires a in s && b in s && FirstPosition(s, a) < FirstPosition(s, b)
    ensures FirstPosition(Distinct(s), a) < FirstPosition(Distinct(s), b)
  {
    var i, j := FirstPosition(Distinct(s), a), FirstPosition(Distinct(s), b);
    if j < i {
      DistinctKeepsOrder(s, j, i);
    }
  }

  /** What the team is routed to, or else the default alone. */
  predicate RoutedTo(p: Policy, models: seq<string>) {
    match p.devTeam
    case Many(routed) => if routed != [] then models == routed else models == [DEFAULT_DEV_TEAM]
    case One(routed) => if routed != "" then models == [routed] else models == [DEFAULT_DEV_TEAM]
    case Unset => models == [DEFAULT_DEV_TEAM]
  }

  lemma RoutedChainHolds(p: Policy, models: seq<string>, m: string)
    requires RoutedTo(p, models)
    ensures Candidates(p) == models
    ensures m in RoutedChain(p)
      <==> exists i :: 0 <= i < |models + [DEFAULT_DEV_TEAM]|
                       && ResolveLocalModel(p, (models + [DEFAULT_DEV_TEAM])[i]) == Some(m)
  {
    ResolveAllHolds(p, models + [DEFAULT_DEV_TEAM], m);
  }

  /** The models that these and the default resolve to, or all loaded models by name when none resolves. */
  ghost predicate ChainOf(p: Policy, models: seq<string>, chain: seq<string>) {
    var all := models + [DEFAULT_DEV_TEAM];
    if forall k :: 0 <= k < |all| ==> ResolveLocalModel(p, all[k]).None?
    then InOrder(chain) && multiset(chain) == multiset(p.known)
    else
      NoDuplicates(chain)
        && forall m :: m in chain <==> exists k :: 0 <= k < |all| && ResolveLocalModel(p, all[k]) == Some(m)
  }

  lemma RoutedChainIsOf(p: Policy, models: seq<string>)
    requires RoutedTo(p, models)
    ensures forall m ::
              m in RoutedChain(p)
              <==> exists k :: 0 <= k < |models + [DEFAULT_DEV_TEAM]|
                               && ResolveLocalModel(p, (models + [DEFAULT_DEV_TEAM])[k]) == Some(m)
  {
    forall m ensures m in RoutedChain(p)
      <==> exists k :: 0 <= k < |models + [DEFAULT_DEV_TEAM]|
                       && ResolveLocalModel(p, (models + [DEFAULT_DEV_TEAM])[k]) == Some(m)
    {
      RoutedChainHolds(p, models, m);
    }
  }

  lemma FallbackChainIsOf(p: Policy, models: seq<string>)
    requires RoutedTo(p, models)
    ensures ChainOf(p, models, FallbackChain(p))
  {
    var all, routed := models + [DEFAULT_DEV_TEAM], RoutedChain(p);
    RoutedChainIsOf(p, models);
    SortNamesSorts(p.known);
    if k :| 0 <= k < |all| && ResolveLocalModel(p, all[k]).Some? {
      assert ResolveLocalModel(p, all[k]).value in routed;
    }
    assert routed != [] ==> routed[0] in routed;
  }

  /** Every routed model that resolves, and the default if it does, is in the chain; and then nothing else is. */
  lemma RoutedModelsAreInTheChain(p: Policy, models: seq<string>, i: nat, m: string)
    requires RoutedTo(p, models) && i <= |models|
    requires ResolveLocalModel(p, (models + [DEFAULT_DEV_TEAM])[i]) == Some(m)
    ensures m in FallbackChain(p)
    ensures forall x :: x in FallbackChain(p) ==>
              exists j :: 0 <= j < |models + [DEFAULT_DEV_TEAM]|
                          && ResolveLocalModel(p, (models + [DEFAULT_DEV_TEAM])[j]) == Some(x)
  {
    RoutedChainHolds(p, models, m);
    forall x | x in FallbackChain(p)
      ensures exists j :: 0 <= j < |models + [DEFAULT_DEV_TEAM]|
                          && ResolveLocalModel(p, (models + [DEFAULT_DEV_TEAM])[j]) == Some(x)
    {
      RoutedChainHolds(p, models, x);
    }
  }

  /** They come in the order routed, ahead of the default: a model that is new at its place comes after those
      of all earlier places. */
  lemma RoutedModelsComeInOrder(p: Policy, models: seq<string>, i: nat, j: nat, a: string, b: string)
    requires RoutedTo(p, models) && i < j <= |models|
    requires ResolveLocalModel(p, (models + [DEFAULT_DEV_TEAM])[i]) == Some(a)
    requires NewAt(p, models + [DEFAULT_DEV_TEAM], j, b)
    ensures var chain := FallbackChain(p);
            a in chain && b in chain && FirstPosition(chain, a) < FirstPosition(chain, b)
  {
    var all := models + [DEFAULT_DEV_TEAM];
    RoutedChainHolds(p, models, a);
    RoutedChainHolds(p, models, b);
    EarlierComesFirst(p, all, i, j, a, b);
    OrderInDistinct(ResolveAll(p, all), a, b);
  }
}
