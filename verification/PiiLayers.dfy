/** Where the masker is used: the router, the OpenAI client behind it, and the
    audit log. */
module PiiLayers {
  import opened Options
  import opened Regex
  import opened Text
  import opened PiiPatterns
  import opened PiiMasker
  import opened PiiResidue
  import opened PiiRoundTrip
  import opened PiiTheorems
  import opened PiiLimits

  /** What a provider answers to one call. */
  datatype Outcome = Reply(text: string) | Failure

  /** A call that left the router: the provider and the two prompts it was given. */
  datatype Call = Call(provider: string, system: string, user: string)

  predicate MasksFor(primary: string, enabled: bool) { enabled && primary != "fake" }

  function Outgoing(cc: Classes, user: string, masks: bool): Masked {
    if masks then Mask(cc, user) else Masked(user, [])
  }

  /** The first answer among the first n attempts. */
  function FirstReply(attempts: seq<Outcome>, n: nat): Outcome
    requires n <= |attempts|
  {
    if n == 0 then Failure
    else if attempts[0].Reply? then attempts[0]
    else FirstReply(attempts[1..], n - 1)
  }

  /** Whose answer counts: the primary's, or the fallback's if that is another provider. */
  function Answer(primary: string, fallback: string, first: Outcome, last: Outcome): Outcome {
    if first.Reply? then first else if fallback == primary then Failure else last
  }

  /** How many of n attempts are made. */
  function Tries(attempts: seq<Outcome>, n: nat): (r: nat)
    requires n <= |attempts|
    ensures r <= n
  {
    if n == 0 then 0 else if attempts[0].Reply? then 1 else 1 + Tries(attempts[1..], n - 1)
  }

  /** The last attempt made is the first that answers; if none does, all are made. */
  lemma {:induction false} TriesFacts(attempts: seq<Outcome>, n: nat)
    requires n <= |attempts|
    ensures var r, first := Tries(attempts, n), FirstReply(attempts, n);
            && (forall j :: 0 <= j < r - 1 ==> attempts[j].Failure?)
            && (n > 0 ==> r > 0)
            && (first.Reply? ==> r > 0 && attempts[r - 1] == first)
            && (first.Failure? ==> r == n && forall j :: 0 <= j < n ==> attempts[j].Failure?)
  {
    if n > 0 && attempts[0].Failure? {
      TriesFacts(attempts[1..], n - 1);
      assert forall j :: 0 < j < |attempts| ==> attempts[j] == attempts[1..][j - 1];
    }
  }

  function Repeat(c: Call, n: nat): (r: seq<Call>)
    ensures |r| == n
  {
    if n == 0 then [] else Repeat(c, n - 1) + [c]
  }

  lemma {:induction false} RepeatAll(c: Call, n: nat)
    ensures forall d :: d in Repeat(c, n) ==> d == c
    ensures n > 0 ==> c in Repeat(c, n)
  {
    if n > 0 {
      RepeatAll(c, n - 1);
      assert Repeat(c, n)[n - 1] == c;
    }
  }

  /** The primary until it answers, then at most one call of another provider;
      all with the same two prompts. */
  function CallsMade(system: string, out: string, primary: string, fallback: string,
                     retries: nat, attempts: seq<Outcome>): seq<Call>
    requires retries <= |attempts|
  {
    Repeat(Call(primary, system, out), Tries(attempts, retries))
    + if FirstReply(attempts, retries).Failure? && fallback != primary then [Call(fallback, system, out)] else []
  }

  lemma CallsEnd(system: string, out: string, primary: string, fallback: string,
                 retries: nat, attempts: seq<Outcome>)
    requires retries <= |attempts|
    ensures var tried := Repeat(Call(primary, system, out), Tries(attempts, retries));
            var more := FirstReply(attempts, retries).Failure? && fallback != primary;
            CallsMade(system, out, primary, fallback, retries, attempts)
            == if more then tried + [Call(fallback, system, out)] else tried
  {
  }

  ghost predicate AllFailed(attempts: seq<Outcome>, n: nat)
    requires n <= |attempts|
  {
    forall i :: 0 <= i < n ==> attempts[i].Failure?
  }

  /** What the router does, in terms of its settings and the attempts alone. */
  ghost predicate Routed(cc: Classes, system: string, user: string, primary: string, fallback: string, enabled: bool,
                         retries: nat, attempts: seq<Outcome>, last: Outcome, result: Outcome, calls: seq<Call>)
    requires retries <= |attempts|
  {
    var out := if enabled && primary != "fake" then Mask(cc, user) else Masked(user, []);
    && (forall i :: 0 <= i < |calls| ==> calls[i].system == system && calls[i].user == out.text)
    && (forall i :: 0 <= i < |calls| && i < retries ==> calls[i].provider == primary)
    && (forall j: nat :: j < retries && attempts[j].Reply? && AllFailed(attempts, j) ==>
          |calls| == j + 1 && result == Reply(Unmask(attempts[j].text, out.items)))
    && (AllFailed(attempts, retries) ==>
          if fallback == primary then |calls| == retries && result == Failure
          else && |calls| == retries + 1 && calls[retries].provider == fallback
               && result == (if last.Reply? then Reply(Unmask(last.text, out.items)) else Failure))
  }

  lemma {:induction false} RepeatAt(c: Call, n: nat, i: nat)
    requires i < n
    ensures Repeat(c, n)[i] == c
  {
    if i < n - 1 { RepeatAt(c, n - 1, i); }
  }

  lemma RoutedIs(cc: Classes, system: string, user: string, primary: string, fallback: string, enabled: bool,
                 retries: nat, attempts: seq<Outcome>, last: Outcome, result: Outcome, calls: seq<Call>)
    requires 1 <= retries <= |attempts|
    requires var out := Outgoing(cc, user, MasksFor(primary, enabled));
             var answer := Answer(primary, fallback, FirstReply(attempts, retries), last);
             && result == (if answer.Reply? then Reply(Unmask(answer.text, out.items)) else Failure)
             && calls == CallsMade(system, out.text, primary, fallback, retries, attempts)
    ensures Routed(cc, system, user, primary, fallback, enabled, retries, attempts, last, result, calls)
  {
    hide Mask, Unmask, Tries, FirstReply, Repeat;
    var out := Outgoing(cc, user, MasksFor(primary, enabled));
    var r, first := Tries(attempts, retries), FirstReply(attempts, retries);
    var one := Call(primary, system, out.text);
    TriesFacts(attempts, retries);
    CallsEnd(system, out.text, primary, fallback, retries, attempts);
    forall i: nat | i < r ensures Repeat(one, r)[i] == one { RepeatAt(one, r, i); }
    hide CallsMade;
    forall j: nat | j < retries && attempts[j].Reply? && AllFailed(attempts, j)
      ensures r == j + 1 && first == attempts[j]
    {
    }
  }

  /** An answer is unmasked if there is anything to unmask. */
  method Unmasked(answer: string, mapping: seq<Item>) returns (text: string)
    ensures text == Unmask(answer, mapping)
  {
    text := answer;
    if mapping != [] { text := UnmaskPii(text, mapping); }
  }

  /** The masking done once, before any provider is called. */
  method MaskOutgoing(cc: Classes, user: string, primary: string, enabled: bool)
    returns (masked: string, mapping: seq<Item>)
    ensures Masked(masked, mapping) == Outgoing(cc, user, MasksFor(primary, enabled))
  {
    masked, mapping := user, [];
    if enabled && primary != "fake" {
      masked, mapping := MaskPii(cc, user);
    }
  }

  /** `complete_with_fallback`: mask once, try the primary provider `retries`
      times, then the fallback once; whoever answers, the answer is unmasked
      with the one mapping, and nobody is given anything but the system prompt as
      it is and the one masked user prompt. */
  method CompleteWithFallback(cc: Classes, system: string, user: string, primary: string, fallback: string,
                              enabled: bool, retries: nat, attempts: seq<Outcome>, last: Outcome)
    returns (result: Outcome, calls: seq<Call>)
    requires 1 <= retries <= |attempts|
    ensures var out := Outgoing(cc, user, MasksFor(primary, enabled));
            var answer := Answer(primary, fallback, FirstReply(attempts, retries), last);
            && result == (if answer.Reply? then Reply(Unmask(answer.text, out.items)) else Failure)
            && calls == CallsMade(system, out.text, primary, fallback, retries, attempts)
    ensures Routed(cc, system, user, primary, fallback, enabled, retries, attempts, last, result, calls)
  {
    result, calls := TryProviders(cc, system, user, primary, fallback, enabled, retries, attempts, last);
    RoutedIs(cc, system, user, primary, fallback, enabled, retries, attempts, last, result, calls);
  }

  /** Its body. */
  method TryProviders(cc: Classes, system: string, user: string, primary: string, fallback: string,
                      enabled: bool, retries: nat, attempts: seq<Outcome>, last: Outcome)
    returns (result: Outcome, calls: seq<Call>)
    requires 1 <= retries <= |attempts|
    ensures var out := Outgoing(cc, user, MasksFor(primary, enabled));
            var answer := Answer(primary, fallback, FirstReply(attempts, retries), last);
            && result == (if answer.Reply? then Reply(Unmask(answer.text, out.items)) else Failure)
            && calls == CallsMade(system, out.text, primary, fallback, retries, attempts)
  {
    var masked, mapping := MaskOutgoing(cc, user, primary, enabled);
    ghost var first, tries := FirstReply(attempts, retries), Tries(attempts, retries);
    TriesFacts(attempts, retries);
    CallsEnd(system, masked, primary, fallback, retries, attempts);
    ghost var out := Outgoing(cc, user, MasksFor(primary, enabled));
    assert out == Masked(masked, mapping);
    hide Outgoing, MasksFor, Unmask, Tries, FirstReply, CallsMade;
    calls := [];
    var n := 0;
    while n < retries
      invariant n <= retries && calls == Repeat(Call(primary, system, masked), n)
      invariant forall j :: 0 <= j < n ==> attempts[j].Failure?
    {
      calls := calls + [Call(primary, system, masked)];
      n := n + 1;
      if attempts[n - 1].Reply? {
        assert tries == n && first == attempts[n - 1];
        var text := Unmasked(attempts[n - 1].text, mapping);
        return Reply(text), calls;
      }
    }
    assert first == Failure && tries == n;
    if fallback == primary {
      return Failure, calls;
    }
    calls := calls + [Call(fallback, system, masked)];
    result := last;
    if last.Reply? {
      var text := Unmasked(last.text, mapping);
      result := Reply(text);
    }
  }

  // ---- Leaks ---------------------------------------------------------------

  ghost predicate HasMatch(cc: Classes, t: string) { exists k :: !Free(cc, k, t) }

  /** What a client posts of a prompt: the OpenAI client masks it first. */
  function Posted(cc: Classes, provider: string, prompt: string): string {
    if provider == "openai" then Mask(cc, prompt).text else prompt
  }

  /** A real provider is sent something the masker recognises. */
  ghost predicate Leak(cc: Classes, c: Call) {
    && c.provider != "fake"
    && (HasMatch(cc, Posted(cc, c.provider, c.system)) || HasMatch(cc, Posted(cc, c.provider, c.user)))
  }

  ghost predicate Leaks(cc: Classes, system: string, user: string, primary: string, fallback: string, enabled: bool,
                        retries: nat, attempts: seq<Outcome>)
    requires retries <= |attempts|
  {
    var out := Outgoing(cc, user, MasksFor(primary, enabled)).text;
    exists c :: c in CallsMade(system, out, primary, fallback, retries, attempts) && Leak(cc, c)
  }

  /** The client of this provider posts a match that is in the prompt: it posts
      the prompt as it is, or masks it and its placeholders run into phone numbers. */
  ghost predicate Passes(cc: Classes, provider: string, prompt: string) {
    provider != "fake" && if provider == "openai" then !CountersFit(cc, prompt) else HasMatch(cc, prompt)
  }

  /** The same for the user prompt, which the router may have masked before. */
  ghost predicate PassesUser(cc: Classes, provider: string, user: string, masks: bool) {
    if !masks then Passes(cc, provider, user)
    else provider != "fake" && !CountersFit(cc, if provider == "openai" then Mask(cc, user).text else user)
  }

  /** A call of this provider leaks. */
  ghost predicate Reveals(cc: Classes, provider: string, system: string, user: string, masks: bool) {
    Passes(cc, provider, system) || PassesUser(cc, provider, user, masks)
  }

  lemma PassesIff(cc: Classes, provider: string, prompt: string)
    ensures Passes(cc, provider, prompt) <==> provider != "fake" && HasMatch(cc, Posted(cc, provider, prompt))
  {
    hide Mask, Free, CountersFit;
    ResidueIff(cc, prompt);
  }

  lemma RevealsIff(cc: Classes, provider: string, system: string, user: string, masks: bool)
    ensures Reveals(cc, provider, system, user, masks) <==>
            Leak(cc, Call(provider, system, Outgoing(cc, user, masks).text))
  {
    hide Mask, Free, CountersFit;
    ResidueIff(cc, user);
    PassesIff(cc, provider, system);
    PassesIff(cc, provider, Outgoing(cc, user, masks).text);
  }

  lemma CallsAre(system: string, out: string, primary: string, fallback: string,
                 retries: nat, attempts: seq<Outcome>, c: Call)
    requires 1 <= retries <= |attempts|
    ensures c in CallsMade(system, out, primary, fallback, retries, attempts) <==>
            || c == Call(primary, system, out)
            || (c == Call(fallback, system, out) && FirstReply(attempts, retries).Failure? && fallback != primary)
  {
    TriesFacts(attempts, retries);
    RepeatAll(Call(primary, system, out), Tries(attempts, retries));
  }

  /** Exactly when a request leaks: the primary reveals one of the prompts, or
      it fails every time and the fallback does. */
  lemma LeakIff(cc: Classes, system: string, user: string, primary: string, fallback: string, enabled: bool,
                retries: nat, attempts: seq<Outcome>)
    requires 1 <= retries <= |attempts|
    ensures var masks := MasksFor(primary, enabled);
            Leaks(cc, system, user, primary, fallback, enabled, retries, attempts) <==>
            || Reveals(cc, primary, system, user, masks)
            || (FirstReply(attempts, retries).Failure? && Reveals(cc, fallback, system, user, masks))
  {
    hide Mask, HasMatch, Reveals, Outgoing, Leak, MasksFor, FirstReply;
    var masks := MasksFor(primary, enabled);
    var out := Outgoing(cc, user, masks).text;
    RevealsIff(cc, primary, system, user, masks);
    RevealsIff(cc, fallback, system, user, masks);
    hide CallsMade;
    forall c
      ensures c in CallsMade(system, out, primary, fallback, retries, attempts) <==>
              || c == Call(primary, system, out)
              || (c == Call(fallback, system, out) && FirstReply(attempts, retries).Failure? && fallback != primary)
    {
      CallsAre(system, out, primary, fallback, retries, attempts, c);
    }
  }

  function AllFail(n: nat): (attempts: seq<Outcome>)
    ensures |attempts| == n && FirstReply(attempts, n).Failure?
  {
    if n == 0 then [] else [Failure] + AllFail(n - 1)
  }

  /** A request that is masked reveals nothing of the user prompt to anybody. */
  lemma MaskedUserIsSafe(cc: Classes, system: string, user: string, primary: string, fallback: string,
                         retries: nat, attempts: seq<Outcome>, c: Call)
    requires 1 <= retries <= |attempts| && primary != "fake" && CountersFit(cc, user)
    requires var out := Outgoing(cc, user, MasksFor(primary, true)).text;
             c in CallsMade(system, out, primary, fallback, retries, attempts)
    ensures c.user == Mask(cc, user).text && !HasMatch(cc, c.user)
  {
    hide Mask, Free, CountersFit, CallsMade;
    CallsAre(system, Outgoing(cc, user, MasksFor(primary, true)).text, primary, fallback, retries, attempts, c);
    ResidueIff(cc, user);
  }

  /** Over all behaviours of the providers: whether a leak is possible can be
      read off the settings and the prompts before the call. */
  lemma LeakPossibleIff(cc: Classes, system: string, user: string, primary: string, fallback: string,
                        enabled: bool, retries: nat)
    requires 1 <= retries
    ensures var masks := MasksFor(primary, enabled);
            (exists attempts: seq<Outcome> :: |attempts| >= retries &&
               Leaks(cc, system, user, primary, fallback, enabled, retries, attempts)) <==>
            Reveals(cc, primary, system, user, masks) || Reveals(cc, fallback, system, user, masks)
  {
    hide Leaks, Reveals, FirstReply, MasksFor;
    var masks := MasksFor(primary, enabled);
    forall attempts: seq<Outcome> | |attempts| >= retries
      ensures Leaks(cc, system, user, primary, fallback, enabled, retries, attempts) <==>
              || Reveals(cc, primary, system, user, masks)
              || (FirstReply(attempts, retries).Failure? && Reveals(cc, fallback, system, user, masks))
    {
      LeakIff(cc, system, user, primary, fallback, enabled, retries, attempts);
    }
    assert FirstReply(AllFail(retries), retries).Failure?;
  }

  /** Providers whose clients post the prompts as they get them. */
  predicate PostsAsIs(provider: string) { provider != "fake" && provider != "openai" }

  /** For prompts short enough for their counters, what a provider reveals: the
      system prompt, which the router never masks, and an unmasked user prompt,
      unless the client masks them itself. */
  lemma OrdinaryReveals(cc: Classes, provider: string, system: string, user: string, masks: bool)
    requires CountersFit(cc, system) && CountersFit(cc, user)
    ensures Reveals(cc, provider, system, user, masks) <==>
            PostsAsIs(provider) && (HasMatch(cc, system) || (!masks && HasMatch(cc, user)))
  {
    hide Mask, Free;
    MaskIdempotent(cc, user, Mask(cc, user).text);
    MaskedFits(cc, Mask(cc, user).text);
  }

  /** A text in which masking finds nothing meets every bound on the counters. */
  lemma MaskedFits(cc: Classes, t: string)
    requires Mask(cc, t) == Masked(t, [])
    ensures CountersFit(cc, t)
  {
    hide AfterEmail, AfterPhone, AfterOgrn, AfterInn, Pow10;
    Powers();
  }

  /** It does happen: a failing fake primary, for which nothing is masked, with
      a fallback that posts its prompts as they are sends on any INN ... */
  lemma FallbackLeaks(cc: Classes, system: string, inn: string, fallback: string, enabled: bool, retries: nat)
    requires TenDigits(inn) && fallback in {"yandex", "gigachat", "llama"} && retries > 0
    ensures Leaks(cc, system, inn, "fake", fallback, enabled, retries, AllFail(retries))
  {
    hide Leaks, Free;
    TenDigitsAreInn(cc, inn);
    assert !Free(cc, INN, inn) by { SpanIsMatch(cc, INN, inn, 0, 10); }
    LeakIff(cc, system, inn, "fake", fallback, enabled, retries, AllFail(retries));
  }

  /** ... and an INN in the system prompt is sent on even with masking enabled. */
  lemma SystemPromptLeaks(cc: Classes, inn: string, user: string, primary: string, fallback: string,
                          retries: nat, attempts: seq<Outcome>)
    requires TenDigits(inn) && primary in {"yandex", "gigachat", "llama"} && 1 <= retries <= |attempts|
    ensures Leaks(cc, inn, user, primary, fallback, true, retries, attempts)
  {
    hide Leaks, Free;
    TenDigitsAreInn(cc, inn);
    assert !Free(cc, INN, inn) by { SpanIsMatch(cc, INN, inn, 0, 10); }
    LeakIff(cc, inn, user, primary, fallback, true, retries, attempts);
  }

  /** The OpenAI client posts nothing that the masker recognises, even if the
      router does not mask. */
  lemma OpenAiIsSafe(cc: Classes, system: string, user: string, enabled: bool, retries: nat, attempts: seq<Outcome>)
    requires CountersFit(cc, system) && CountersFit(cc, user) && 1 <= retries <= |attempts|
    ensures !Leaks(cc, system, user, "openai", "openai", enabled, retries, attempts)
  {
    hide Leaks, Reveals, CountersFit;
    LeakIff(cc, system, user, "openai", "openai", enabled, retries, attempts);
    OrdinaryReveals(cc, "openai", system, user, MasksFor("openai", enabled));
  }

  // ---- The OpenAI client masks once more -----------------------------------

  /** `{**a, **b}`: entries of a keep their place, entries of b win. */
  function Merge(a: seq<Item>, b: seq<Item>): seq<Item>
    decreases |b|
  {
    if b == [] then a else Merge(Put(a, b[0]), b[1..])
  }

  function Put(a: seq<Item>, x: Item): seq<Item> {
    if a == [] then [x] else if a[0].key == x.key then [x] + a[1..] else [a[0]] + Put(a[1..], x)
  }

  lemma AsMapCons(x: Item, s: seq<Item>)
    ensures AsMap([x] + s) == AsMap(s)[x.key := x.value] && AsMap([]) == map[]
  {
    assert ([x] + s)[1..] == s;
  }

  lemma PutStep(a: seq<Item>, x: Item)
    ensures Put([], x) == [x] + []
    ensures a != [] ==> Put(a, x) == if a[0].key == x.key then [x] + a[1..] else [a[0]] + Put(a[1..], x)
  {
  }

  lemma UpdateTwice(m: map<string, string>, k: string, v: string, l: string, w: string)
    ensures if k == l then m[k := v][l := w] == m[l := w] else m[k := v][l := w] == m[l := w][k := v]
  {
  }

  lemma {:induction false} PutIs(a: seq<Item>, x: Item)
    ensures AsMap(Put(a, x)) == AsMap(a)[x.key := x.value]
  {
    hide *;
    PutStep(a, x);
    if a == [] {
      AsMapCons(x, []);
    } else {
      var head, tail := a[0], a[1..];
      assert a == [head] + tail;
      AsMapCons(head, tail);
      UpdateTwice(AsMap(tail), head.key, head.value, x.key, x.value);
      if head.key == x.key {
        AsMapCons(x, tail);
      } else {
        PutIs(tail, x);
        AsMapCons(head, Put(tail, x));
      }
    }
  }

  lemma UpdateFirst(m: map<string, string>, n: map<string, string>, k: string, v: string)
    requires k !in n
    ensures m[k := v] + n == m + n[k := v]
  {
  }

  /** A dict of both mappings, in which the later one wins. */
  lemma {:induction false} MergeIs(a: seq<Item>, b: seq<Item>)
    requires Distinct(b)
    ensures AsMap(Merge(a, b)) == AsMap(a) + AsMap(b)
    decreases |b|
  {
    if b == [] {
      AsMapCons(Item("", ""), []);
    } else {
      hide *;
      var x, rest := b[0], b[1..];
      assert b == [x] + rest;
      AsMapRest(b);
      AsMapCons(x, rest);
      PutIs(a, x);
      MergeIs(Put(a, x), rest);
      MergeStep(a, b);
      UpdateFirst(AsMap(a), AsMap(rest), x.key, x.value);
    }
  }

  lemma MergeStep(a: seq<Item>, b: seq<Item>)
    requires b != []
    ensures Merge(a, b) == Merge(Put(a, b[0]), b[1..])
  {
  }

  /** What the client returns when the model answers `reply` to the masked prompts. */
  function ClientAnswer(cc: Classes, system: string, user: string, reply: string): string
  {
    Unmask(reply, Merge(Mask(cc, system).items, Mask(cc, user).items))
  }

  /** The client sends a prompt that the router has masked as it got it exactly
      when the counters fit; it then adds only the system prompt's entries. */
  lemma ClientMapping(cc: Classes, system: string, user: string, masked: string)
    requires masked == Mask(cc, user).text
    ensures Mask(cc, masked).text == masked <==> CountersFit(cc, user)
    ensures CountersFit(cc, user) ==>
              Merge(Mask(cc, system).items, Mask(cc, masked).items) == Mask(cc, system).items
  {
    hide Mask, CountersFit;
    MaskIdempotentIff(cc, user, masked);
    if Mask(cc, masked).text == masked { UnchangedIsUnmasked(cc, masked); }
  }

  /** What the router returns when the client behind it is answered `reply`. */
  function BothLayers(cc: Classes, system: string, user: string, reply: string): string {
    Unmask(ClientAnswer(cc, system, Mask(cc, user).text, reply), Mask(cc, user).items)
  }

  /** The same, each layer replacing all its keys at once. */
  ghost function TwoLayers(cc: Classes, system: string, user: string, reply: string): string {
    Restore(Restore(reply, Mapping(cc, system)), Mapping(cc, user))
  }

  /** The two layers compute TwoLayers; the router alone computes Restore. */
  lemma LayersCompute(cc: Classes, system: string, user: string, reply: string)
    requires CountersFit(cc, user) && Apart(Mapping(cc, system)) && Apart(Mapping(cc, user))
    ensures BothLayers(cc, system, user, reply) == TwoLayers(cc, system, user, reply)
    ensures Unmask(reply, Mask(cc, user).items) == Restore(reply, Mapping(cc, user))
  {
    ClientMapping(cc, system, user, Mask(cc, user).text);
    hide Unmask, Restore;
    OwnOrder(cc, system);
    OwnOrder(cc, user);
    hide Mask, Mapping, Merge, Apart;
    UnmaskAnyOrder(cc, system, Mask(cc, system).items, reply);
    UnmaskAnyOrder(cc, user, Mask(cc, user).items, Restore(reply, Mapping(cc, system)));
    UnmaskAnyOrder(cc, user, Mask(cc, user).items, reply);
  }

  lemma OwnOrder(cc: Classes, t: string)
    ensures Lists(cc, t, Mask(cc, t).items)
  {
    hide Mask;
    MaskDistinct(cc, t);
  }

  /** Every key of s stands for the same text in u, and that text completes no
      key of u. */
  ghost predicate Harmless(s: map<string, string>, u: map<string, string>) {
    (forall key :: key in s ==> key in u && u[key] == s[key]) && Solid(s, u)
  }

  /** Restoring by s first makes no difference to restoring by u. */
  ghost predicate Invisible(s: map<string, string>, u: map<string, string>) {
    forall reply :: Same(reply, s, u)
  }

  ghost predicate Same(reply: string, s: map<string, string>, u: map<string, string>) {
    Restore(Restore(reply, s), u) == Restore(reply, u)
  }

  lemma InvisibleIsHarmless(s: map<string, string>, u: map<string, string>)
    requires Good(s) && Good(u) && Invisible(s, u) && forall key :: key in s ==> s[key] != ""
    ensures Harmless(s, u)
  {
    hide Infix, Good, Restore;
    forall key | key in s ensures key in u && u[key] == s[key] {
      assert Same(key, s, u);
      RestoreSingle(key, s, u);
    }
    forall key, other | key in s && other in u ensures !Infix(s[key], other) {
      if Infix(s[key], other) {
        var reply := CompletingReply(s, u, key, other);
        var same := Same(reply, s, u);
      }
    }
  }

  lemma HarmlessIsInvisible(s: map<string, string>, u: map<string, string>)
    requires Good(s) && Good(u) && Harmless(s, u)
    ensures Invisible(s, u)
  {
    var items := Listing(s);
    forall j | 0 <= j < |items| ensures items[j].key in s && s[items[j].key] == items[j].value { AsMapAt(items, j); }
    hide Restore, Infix, Good, AsMap;
    forall reply ensures Same(reply, s, u) {
      UnmaskIsRestore(reply, items);
      UnmaskWithin(reply, items, u);
    }
  }

  /** The second layer is invisible, whatever the model answers, exactly when it
      is harmless; a system prompt without personal data is the common case. */
  lemma SecondLayerInvisible(cc: Classes, system: string, user: string)
    ensures (forall reply :: TwoLayers(cc, system, user, reply) == Restore(reply, Mapping(cc, user)))
            <==> Harmless(Mapping(cc, system), Mapping(cc, user))
  {
    var s, u := Mapping(cc, system), Mapping(cc, user);
    MappingGood(cc, system);
    MappingGood(cc, user);
    forall key | key in s ensures s[key] != "" { ValuesNonEmpty(cc, system, key); }
    hide Mapping, Harmless, Restore, Good;
    forall reply ensures TwoLayers(cc, system, user, reply) == Restore(reply, u) <==> Same(reply, s, u) {}
    if Invisible(s, u) { InvisibleIsHarmless(s, u); }
    if Harmless(s, u) { HarmlessIsInvisible(s, u); }
  }

  /** So with these two conditions the router behaves as if the client did not
      mask, for all answers, exactly when that is harmless. */
  lemma LayersAgreeIff(cc: Classes, system: string, user: string)
    requires CountersFit(cc, user) && Apart(Mapping(cc, system)) && Apart(Mapping(cc, user))
    ensures (forall reply :: BothLayers(cc, system, user, reply) == Unmask(reply, Mask(cc, user).items))
            <==> Harmless(Mapping(cc, system), Mapping(cc, user))
  {
    SecondLayerInvisible(cc, system, user);
    hide *;
    forall reply
      ensures BothLayers(cc, system, user, reply) == TwoLayers(cc, system, user, reply)
      ensures Unmask(reply, Mask(cc, user).items) == Restore(reply, Mapping(cc, user))
    {
      LayersCompute(cc, system, user, reply);
    }
  }

  /** A text in which restoring the one mapping forms a key of the other. */
  lemma CompletingReply(s: map<string, string>, u: map<string, string>, key: string, other: string)
    returns (reply: string)
    requires Good(s) && Good(u) && key in s && key in u && u[key] == s[key] && s[key] != ""
    requires other in u && Infix(s[key], other)
    ensures Restore(Restore(reply, s), u) != Restore(reply, u)
  {
    var w, y := CompletedText(s[key], other);
    reply := Around(w, key, y);
    hide Restore;
    RestoreCompletes(s, key, w, y);
    RestoreCompletes(u, key, w, y);
    RestoreKey(other, "", u);
    RestoreNil(u);
    assert other + "" == other && u[other] + "" == u[other];
    GoodKey(u, other);
    assert other[0] == '<';
  }

  lemma OnlyTen(cc: Classes, t: string)
    requires TenDigits(t)
    ensures Found(cc, INN, t, 0) == Some(10)
  {
    hide Lang;
    TenDigitsAreInn(cc, t);
    var e := Found(cc, INN, t, 0);
    if e.Some? { SpanFacts(cc, INN, t, 0, e.value); }
  }

  /** A text that is nothing but an INN. */
  lemma InnAlone(cc: Classes, t: string)
    requires TenDigits(t)
    ensures Mask(cc, t) == Masked("<INN_1>", [Item("<INN_1>", t)])
  {
    hide Lang, Found, Span, Pass, Free;
    TenDigitsAreInn(cc, t);
    FreePass(cc, EMAIL, t, 0, 0);
    FreePass(cc, PHONE, t, 0, 0);
    FreePass(cc, OGRN, t, 0, 0);
    assert t[0..] == t && t[0..10] == t;
    OnlyTen(cc, t);
    PassStep(cc, INN, t, 0, 0);
    PassEnd(cc, INN, t, 1);
    FirstInn();
    assert "<INN_1>" + "" == "<INN_1>" && [Item("<INN_1>", t)] + [] == [Item("<INN_1>", t)];
  }

  lemma RestoreInn(cc: Classes, t: string)
    requires TenDigits(t)
    ensures Restore("<INN_1>", Mapping(cc, t)) == t
    ensures forall x: string | '<' !in x :: Restore(x, Mapping(cc, t)) == x
  {
    InnAlone(cc, t);
    MappingGood(cc, t);
    AsMapAt(Mask(cc, t).items, 0) by { MaskDistinct(cc, t); }
    hide Mask, Restore;
    var m := Mapping(cc, t);
    assert m["<INN_1>"] == t;
    RestoreNil(m);
    RestoreKey("<INN_1>", "", m);
    assert "<INN_1>" + "" == "<INN_1>" && t + "" == t;
    forall x | '<' !in x ensures Restore(x, m) == x {
      RestorePlain(x, "", m);
      assert x + "" == x;
    }
  }

  /** It does go wrong with any two INNs: the answer names the supplier of the
      user prompt and gets the one of the system prompt. */
  lemma LayersConfuse(cc: Classes, system: string, user: string)
    requires TenDigits(system) && TenDigits(user) && system != user
    ensures BothLayers(cc, system, user, "<INN_1>") == system != user == Unmask("<INN_1>", Mask(cc, user).items)
  {
    hide Restore, Mapping, BothLayers, Mask, CountersFit, Unmask;
    RestoreInn(cc, system);
    RestoreInn(cc, user);
    ShortTextFits(cc, system);
    ShortTextFits(cc, user);
    LayersCompute(cc, system, user, "<INN_1>");
  }

  lemma RestoreSingle(key: string, s: map<string, string>, u: map<string, string>)
    requires Good(s) && Good(u) && key in s && Restore(Restore(key, s), u) == Restore(key, u)
    ensures key in u && u[key] == s[key]
  {
    assert key + "" == key && s[key] + "" == s[key];
    RestoreKey(key, "", s);
    RestorePlain(s[key], "", u);
    if key in u {
      RestoreKey(key, "", u);
      assert u[key] + "" == u[key];
    } else {
      RestoreForeign(key, u);
    }
  }

  lemma RestoreForeign(key: string, u: map<string, string>)
    requires Good(u) && Framed(key) && key !in u
    ensures Restore(key, u) == key
  {
    forall other | other in u ensures !(other <= key) {
      if other <= key { FramedPrefix(other, key, key); }
    }
    KeyTail(key);
    var w := key[1..];
    hide Restore, Good, Framed;
    RestoreChar(key, u);
    RestorePlain(w, "", u);
    RestoreNil(u);
    assert w + "" == w && key == [key[0]] + w;
  }

  lemma {:induction false} UnmaskWithin(t: string, items: seq<Item>, m: map<string, string>)
    requires Good(m) && Recorded(items, m) && forall x :: x in items ==> Outside(x.value, m)
    ensures Restore(Unmask(t, items), m) == Restore(t, m)
    decreases |items|
  {
    if items != [] {
      var x := items[0];
      assert Recorded(items[1..], m) by { RecordedTail(x, items[1..], m); assert items == [x] + items[1..]; }
      ReplaceThenRestore(t, m, x.key, m);
      UnmaskWithin(Replace(t, x.key, x.value), items[1..], m);
    }
  }

  // ---- The audit log -------------------------------------------------------

  /** JSON-like payloads as `_mask_value` sees them. */
  datatype Payload =
    | Str(text: string)
    | Dict(entries: seq<(string, Payload)>)
    | List(elems: seq<Payload>)
    | Tuple(elems: seq<Payload>)
    | Scalar(value: int)

  function MaskValue(cc: Classes, v: Payload): Payload {
    match v
    case Str(t) => Str(Mask(cc, t).text)
    case Dict(es) => Dict(seq(|es|, i requires 0 <= i < |es| => (es[i].0, MaskValue(cc, es[i].1))))
    case List(es) => List(seq(|es|, i requires 0 <= i < |es| => MaskValue(cc, es[i])))
    case Tuple(es) => Tuple(seq(|es|, i requires 0 <= i < |es| => MaskValue(cc, es[i])))
    case Scalar(_) => v
  }

  /** The part of a payload at the end of a path of positions. */
  function Part(v: Payload, path: seq<nat>): Option<Payload>
    decreases |path|
  {
    if path == [] then Some(v) else
    var i := path[0];
    match v
    case Dict(es) => if i < |es| then Part(es[i].1, path[1..]) else None
    case List(es) => if i < |es| then Part(es[i], path[1..]) else None
    case Tuple(es) => if i < |es| then Part(es[i], path[1..]) else None
    case _ => None
  }

  /** Same shape, same keys and scalars, and every string masked. */
  lemma {:induction false} MaskValueAt(cc: Classes, v: Payload, path: seq<nat>)
    ensures Part(v, path).Some? <==> Part(MaskValue(cc, v), path).Some?
    ensures Part(v, path).Some? ==>
              var w := Part(MaskValue(cc, v), path).value;
              match Part(v, path).value
              case Str(t) => w == Str(Mask(cc, t).text)
              case Scalar(_) => w == Part(v, path).value
              case Dict(es) => w.Dict? && |w.entries| == |es| && forall i :: 0 <= i < |es| ==> w.entries[i].0 == es[i].0
              case List(es) => w.List? && |w.elems| == |es|
              case Tuple(es) => w.Tuple? && |w.elems| == |es|
    decreases |path|
  {
    hide Mask;
    if path != [] {
      var i, rest := path[0], path[1..];
      match v
      case Dict(es) => if i < |es| { MaskValueAt(cc, es[i].1, rest); }
      case List(es) => if i < |es| { MaskValueAt(cc, es[i], rest); }
      case Tuple(es) => if i < |es| { MaskValueAt(cc, es[i], rest); }
      case _ =>
    }
  }

  /** Every string of the payload, at any depth, satisfies p. */
  ghost predicate EveryText(v: Payload, p: string -> bool) {
    match v
    case Str(t) => p(t)
    case Dict(es) => forall i :: 0 <= i < |es| ==> EveryText(es[i].1, p)
    case List(es) => forall i :: 0 <= i < |es| ==> EveryText(es[i], p)
    case Tuple(es) => forall i :: 0 <= i < |es| ==> EveryText(es[i], p)
    case Scalar(_) => true
  }

  ghost function Fits(cc: Classes): string -> bool { t => CountersFit(cc, t) }
  ghost function Unmatched(cc: Classes): string -> bool { t => !HasMatch(cc, t) }

  /** Masking a payload twice changes nothing, and no string in it keeps a match,
      exactly when that is so for every string of the payload. */
  lemma {:induction false} MaskValueIdempotentIff(cc: Classes, v: Payload)
    ensures MaskValue(cc, MaskValue(cc, v)) == MaskValue(cc, v) <==> EveryText(v, Fits(cc))
    ensures EveryText(MaskValue(cc, v), Unmatched(cc)) <==> EveryText(v, Fits(cc))
  {
    hide Lang, Mask, CountersFit, Free;
    var once := MaskValue(cc, v);
    var twice := MaskValue(cc, once);
    match v
    case Str(t) =>
      ResidueIff(cc, t);
      MaskIdempotentIff(cc, t, Mask(cc, t).text);
      if Mask(cc, Mask(cc, t).text).text == Mask(cc, t).text { UnchangedIsUnmasked(cc, Mask(cc, t).text); }
    case Dict(es) =>
      forall i | 0 <= i < |es|
        ensures twice.entries[i].1 == once.entries[i].1 <==> EveryText(es[i].1, Fits(cc))
        ensures EveryText(once.entries[i].1, Unmatched(cc)) <==> EveryText(es[i].1, Fits(cc))
      {
        MaskValueIdempotentIff(cc, es[i].1);
      }
    case List(es) =>
      forall i | 0 <= i < |es|
        ensures twice.elems[i] == once.elems[i] <==> EveryText(es[i], Fits(cc))
        ensures EveryText(once.elems[i], Unmatched(cc)) <==> EveryText(es[i], Fits(cc))
      {
        MaskValueIdempotentIff(cc, es[i]);
      }
    case Tuple(es) =>
      forall i | 0 <= i < |es|
        ensures twice.elems[i] == once.elems[i] <==> EveryText(es[i], Fits(cc))
        ensures EveryText(once.elems[i], Unmatched(cc)) <==> EveryText(es[i], Fits(cc))
      {
        MaskValueIdempotentIff(cc, es[i]);
      }
    case Scalar(_) =>
  }
}
