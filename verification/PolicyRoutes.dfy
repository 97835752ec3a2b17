/**
  What the second lock of a provider check compares, on the agent's own attributes,
  and what a refused check leaves for the operator to read
  (runtime/hermes/enterprise_bridge/runtime_policy.py:128-176;
  runtime/hermes/enterprise_bridge/cloud_managed.py:523-559).
 */
module PolicyRoutes {
  import opened Wrappers
  import opened PolicyLatch

  /** `base` is `url` without the slashes at its end, all of them. */
  predicate Bare(url: string, base: string) {
    && |base| <= |url| && url[..|base|] == base
    && (base == "" || base[|base| - 1] != '/')
    && forall i :: |base| <= i < |url| ==> url[i] == '/'
  }

  predicate Reads(attribute: Option<string>, value: string) {
    attribute == Some(value) || (attribute.None? && value == "")
  }

  predicate ReadsBare(attribute: Option<string>, base: string) {
    (attribute.Some? && Bare(attribute.value, base)) || (attribute.None? && base == "")
  }

  lemma {:induction false} SlashesDropped(s: string)
    ensures Bare(s, WithoutSlashes(s))
    decreases |s|
  {
    if s != "" && s[|s| - 1] == '/' {
      var front := s[..|s| - 1];
      SlashesDropped(front);
      var base := WithoutSlashes(front);
      assert forall i :: 0 <= i < |front| ==> s[i] == front[i];
      assert s[..|base|] == front[..|base|];
    } else {
      assert s[..|s|] == s;
    }
  }

  /** A string has one bare form. */
  lemma BareIsUnique(url: string, a: string, b: string)
    requires Bare(url, a) && Bare(url, b)
    ensures a == b
  {
    assert a != "" ==> url[|a| - 1] == a[|a| - 1];
    assert b != "" ==> url[|b| - 1] == b[|b| - 1];
    assert |a| == |b|;
  }

  /** The route compared: the agent's attributes, empty when absent, the URL without its last slashes. */
  lemma RouteReadsAgent(a: Agent, r: Route)
    ensures RouteOf(a) == r <==>
      Reads(a.provider, r.provider) && ReadsBare(a.baseUrl, r.baseUrl) && Reads(a.apiKey, r.apiKey) && Reads(a.apiMode, r.apiMode)
  {
    var url := if a.baseUrl.Some? then a.baseUrl.value else "";
    SlashesDropped(url);
    if Bare(url, r.baseUrl) { BareIsUnique(url, WithoutSlashes(url), r.baseUrl); }
  }

  /** The second lock passes exactly when a binding is held that agrees with the agent, attribute by attribute. */
  lemma SecondLockExactly(l: Latch, a: Agent)
    ensures CheckRoute(l, a).1 <==>
      && l.binding.Some?
      && Reads(a.provider, l.binding.value.provider) && ReadsBare(a.baseUrl, l.binding.value.baseUrl)
      && Reads(a.apiKey, l.binding.value.apiKey) && Reads(a.apiMode, l.binding.value.apiMode)
    ensures CheckRoute(l, a).1 ==> CheckRoute(l, a).0 == l
  {
    if l.binding.Some? { RouteReadsAgent(a, l.binding.value); }
  }

  /** Any number of slashes, and nothing else. */
  predicate OnlySlashes(s: string) {
    forall i :: 0 <= i < |s| ==> s[i] == '/'
  }

  /** Slashes after the agent's URL change no answer and no state. */
  lemma SlashesChangeNothing(l: Latch, o: Observation, a: Agent, url: string, slashes: string)
    requires a.baseUrl == Some(url) && OnlySlashes(slashes)
    ensures var b := a.(baseUrl := Some(url + slashes));
      CheckRoute(l, b) == CheckRoute(l, a) && EnsureProvider(l, o, b) == EnsureProvider(l, o, a)
  {
    var longer := url + slashes;
    SlashesDropped(url);
    SlashesDropped(longer);
    var base := WithoutSlashes(url);
    assert longer[..|base|] == url[..|base|];
    assert Bare(longer, base);
    BareIsUnique(longer, base, WithoutSlashes(longer));
  }

  // ---- What a refusal says ----------------------------------------------------

  /** The stored text, cut to 500 characters. */
  predicate Said(stored: string, error: string) {
    |stored| == (if |error| <= 500 then |error| else 500) && stored == error[..|stored|]
  }

  lemma ShortIsKept(error: string)
    requires |error| <= 500
    ensures Clip(error) == error
  {}

  /** An armed latch that fails its check says which check failed first: the file, */
  lemma FileTroubleSays(l: Latch, o: Observation)
    requires Armed(l) && o.file != l.digest
    ensures EnsureCurrent(l, o).0.error ==
      if o.file.None? then "native readiness file is unavailable" else "native readiness file changed after validation"
  {
    ShortIsKept("native readiness file is unavailable");
    ShortIsKept("native readiness file changed after validation");
  }

  /** the role binding, */
  lemma BindingTroubleSays(l: Latch, o: Observation)
    requires Armed(l) && o.file == l.digest && !o.sameBinding
    ensures EnsureCurrent(l, o).0.error == "Authenticated Enterprise role binding changed after readiness"
  {
    ShortIsKept("Authenticated Enterprise role binding changed after readiness");
  }

  /** the phase, */
  lemma PhaseTroubleSays(l: Latch, o: Observation)
    requires Armed(l) && o.file == l.digest && o.sameBinding && AdvancePhase(l.phase, o.source).Err?
    ensures EnsureCurrent(l, o).0.error ==
      if l.phase == EnterpriseAssignment then "Managed Enterprise assignment binding regressed to preflight"
      else "Managed Enterprise binding lifecycle is invalid"
  {
    ShortIsKept("Managed Enterprise assignment binding regressed to preflight");
    ShortIsKept("Managed Enterprise binding lifecycle is invalid");
  }

  /** or a local check, whose text is cut to 500 characters. */
  lemma LocalTroubleSays(l: Latch, o: Observation)
    requires Armed(l) && o.file == l.digest && o.sameBinding && AdvancePhase(l.phase, o.source).Ok? && o.localTrouble.Some?
    ensures Said(EnsureCurrent(l, o).0.error, o.localTrouble.value) && EnsureCurrent(l, o).0.phase == o.source
  {}

  lemma FailedRouteSays(l: Latch, a: Agent)
    requires !CheckRoute(l, a).1
    ensures CheckRoute(l, a).0.error ==
      if l.binding.None? then "managed provider binding is unavailable"
      else "effective provider route differs from managed binding"
  {}

  // ---- Who opens and who shuts ------------------------------------------------

  /** A latch that is not ready, or has lost its validator or its digest, refuses and stays as it is. */
  lemma UnarmedRefuses(l: Latch, o: Observation)
    requires !l.ready || !l.validator || l.digest.None?
    ensures EnsureCurrent(l, o) == (l, false)
  {}

  /** The initializer opens the latch once, and its failure, before or after that, shuts it. */
  lemma InitializerOpensAndShuts(s: System, digest: string, source: Source, binding: Route, error: string)
    requires s.initializer == Starting
    ensures var marked := Next(s, Initialize(digest, source, binding));
      && marked.latch.ready && marked.latch.digest == Some(digest) && marked.latch.binding == Some(binding)
      && marked.latch.phase == source && marked.log == s.log + [Opened(source)]
      && Next(marked, Initialize(digest, source, binding)) == marked
      && Shut(Next(marked, InitializerFails(error)).latch) && Shut(Next(s, InitializerFails(error)).latch)
      && Next(marked, InitializerFails(error)).log == marked.log + [Failed]
  {}
}
