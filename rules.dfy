/** What the validation coordinator computes, stated as functions: the base
    rules on plugin names and selectors, and the aggregation of the webhooks'
    results. The imperative coordinator in module Webhook is proved to
    compute Coordinate; the lemmas here state what Coordinate guarantees. */
module Rules {
  import opened Wrappers
  import opened Lexicographic
  import opened PolicyApi

  const PluginsPath: Path := ["spec", "plugins"]
  const SelectorPath: Path := ["spec", "selector"]
  const MatchLabelsPath: Path := ["spec", "selector", "namespace", "matchLabels"]
  const SelectorHint := "one of issuerRef or namespace must be defined, hint: `{}` on either matches everything"

  /** The plugin names of a policy that are not exactly equal to a
      registered name. */
  function Unrecognised(registered: seq<string>, plugins: set<string>): set<string>
  {
    set name | name in plugins && name !in registered
  }

  /** Adding a name the scan has not seen adds it to the unknown names
      exactly when it is not registered. */
  lemma {:induction false} UnrecognisedGrows(registered: seq<string>, seen: set<string>, name: string)
    requires name !in seen
    ensures multiset(Unrecognised(registered, seen + {name}))
      == multiset(Unrecognised(registered, seen)) + if name in registered then multiset{} else multiset{name}
  {
    if name in registered {
      assert Unrecognised(registered, seen + {name}) == Unrecognised(registered, seen);
    } else {
      assert Unrecognised(registered, seen + {name}) == Unrecognised(registered, seen) + {name};
    }
  }

  /** The not-supported error for one unknown plugin name; it lists the
      whole registry as the supported values. */
  function NotSupportedError(name: string, registered: seq<string>): FieldError
  {
    FieldError(NotSupported, PluginsPath, Text(name), SupportedValues(registered))
  }

  function NotSupportedErrors(names: seq<string>, registered: seq<string>): seq<FieldError>
  {
    seq(|names|, i requires 0 <= i < |names| => NotSupportedError(names[i], registered))
  }

  /** First base rule: one error per unknown plugin name, in ascending order
      of name. */
  ghost function PluginErrors(registered: seq<string>, plugins: set<string>): seq<FieldError>
  {
    NotSupportedErrors(SortedNames(Unrecognised(registered, plugins)), registered)
  }

  /** Second base rule: at least one sub-selector must be present. */
  function SelectorErrors(selector: Selector): (r: seq<FieldError>)
    ensures |r| <= 1
    ensures r != [] <==> selector.issuerRef.None? && selector.namespace.None?
    ensures forall e :: e in r ==> e.errorType == Required && e.field == SelectorPath
  {
    if selector.issuerRef.None? && selector.namespace.None? then
      [FieldError(Required, SelectorPath, Text(""), Message(SelectorHint))]
    else
      []
  }

  /** Third base rule: non-empty namespace labels must compile into a label
      selector. */
  function MatchLabelsErrors(selector: Selector, ext: Collaborators): (r: seq<FieldError>)
    ensures |r| <= 1
    ensures r != [] <==> LabelsRejected(selector, ext)
    ensures forall e :: e in r ==>
      && selector.namespace.Some?
      && e == FieldError(Invalid, MatchLabelsPath, Labels(selector.namespace.value.matchLabels),
                         Message(ext.labelSelectorError(selector.namespace.value.matchLabels).value))
  {
    match selector.namespace
    case None => []
    case Some(ns) =>
      if |ns.matchLabels| > 0 then
        match ext.labelSelectorError(ns.matchLabels)
        case None => []
        case Some(msg) => [FieldError(Invalid, MatchLabelsPath, Labels(ns.matchLabels), Message(msg))]
      else
        []
  }

  /** The namespace sub-selector has labels and they do not compile. */
  predicate LabelsRejected(selector: Selector, ext: Collaborators)
  {
    selector.namespace.Some? && |selector.namespace.value.matchLabels| > 0
    && ext.labelSelectorError(selector.namespace.value.matchLabels).Some?
  }

  /** All base-rule errors, in the order the coordinator appends them. */
  ghost function BaseErrors(registered: seq<string>, policy: CertificateRequestPolicy, ext: Collaborators): seq<FieldError>
  {
    PluginErrors(registered, policy.spec.plugins)
      + SelectorErrors(policy.spec.selector)
      + MatchLabelsErrors(policy.spec.selector, ext)
  }

  /** What each registered webhook returns for the policy, in registration
      order. */
  function Results(webhooks: seq<Webhook>, ext: Collaborators, policy: CertificateRequestPolicy): (rs: seq<WebhookResult>)
    ensures |rs| == |webhooks|
    ensures forall i :: 0 <= i < |webhooks| ==> rs[i] == ext.validate(webhooks[i], policy)
  {
    seq(|webhooks|, i requires 0 <= i < |webhooks| => ext.validate(webhooks[i], policy))
  }

  /** The field errors one webhook result adds: a denial's errors; nothing
      for an approval or a failure. */
  function Contribution(r: WebhookResult): seq<FieldError>
  {
    if r.Responded? && !r.allowed then r.errors else []
  }

  /** The contributions of a sequence of results, concatenated in order. */
  function Denials(rs: seq<WebhookResult>): seq<FieldError>
  {
    if rs == [] then [] else Denials(rs[..|rs| - 1]) + Contribution(rs[|rs| - 1])
  }

  /** The position of the first failed result, if any. */
  function FirstFailure(rs: seq<WebhookResult>): (r: Option<nat>)
    ensures r.Some? ==> r.value < |rs| && rs[r.value].Failed?
  {
    if rs == [] then None
    else
      match FirstFailure(rs[..|rs| - 1])
      case Some(k) => Some(k)
      case None => if rs[|rs| - 1].Failed? then Some(|rs| - 1) else None
  }

  /** The coordinator's result: the first webhook failure, or else the base
      errors followed by every denying webhook's errors. It fails exactly
      when some webhook fails, and a success starts with the base errors. */
  ghost function Coordinate(registered: seq<string>, webhooks: seq<Webhook>, ext: Collaborators,
                            policy: CertificateRequestPolicy): (r: Result<seq<FieldError>, ExecError>)
    ensures r.Failure? <==> exists k :: 0 <= k < |webhooks| && ext.validate(webhooks[k], policy).Failed?
    ensures r.Success? ==> BaseErrors(registered, policy, ext) <= r.value
  {
    var rs := Results(webhooks, ext, policy);
    NoFailureAllResponded(rs);
    match FirstFailure(rs)
    case Some(k) => Failure(rs[k].err)
    case None => Success(BaseErrors(registered, policy, ext) + Denials(rs))
  }

  // ---------------------------------------------------------------------
  // Counting errors

  /** The number of errors of a given kind on a given path. */
  function CountOf(errors: seq<FieldError>, t: ErrorType, path: Path): nat
  {
    if errors == [] then 0
    else
      var here := if errors[0].errorType == t && errors[0].field == path then 1 else 0;
      here + CountOf(errors[1..], t, path)
  }

  lemma {:induction false} CountOfAppend(a: seq<FieldError>, b: seq<FieldError>, t: ErrorType, path: Path)
    ensures CountOf(a + b, t, path) == CountOf(a, t, path) + CountOf(b, t, path)
    decreases |a|
  {
    if a != [] {
      assert (a + b)[1..] == a[1..] + b;
      CountOfAppend(a[1..], b, t, path);
    } else {
      assert a + b == b;
    }
  }

  /** The number of not-supported errors naming a given value. */
  function CountNamed(errors: seq<FieldError>, name: string): nat
  {
    if errors == [] then 0
    else
      var here := if errors[0].errorType == NotSupported && errors[0].badValue == Text(name) then 1 else 0;
      here + CountNamed(errors[1..], name)
  }

  // ---------------------------------------------------------------------
  // First base rule: unknown plugin names

  lemma {:induction false} CountNamedNotSupported(names: seq<string>, registered: seq<string>, name: string)
    ensures CountNamed(NotSupportedErrors(names, registered), name) == multiset(names)[name]
    decreases |names|
  {
    if names != [] {
      assert NotSupportedErrors(names, registered)[1..] == NotSupportedErrors(names[1..], registered);
      CountNamedNotSupported(names[1..], registered, name);
      assert names == [names[0]] + names[1..];
    }
  }

  lemma {:induction false} CountOfNotSupported(names: seq<string>, registered: seq<string>, t: ErrorType, path: Path)
    requires t != NotSupported
    ensures CountOf(NotSupportedErrors(names, registered), t, path) == 0
    decreases |names|
  {
    if names != [] {
      assert NotSupportedErrors(names, registered)[1..] == NotSupportedErrors(names[1..], registered);
      CountOfNotSupported(names[1..], registered, t, path);
    }
  }

  /** Every plugin name that is not exactly a registered name produces
      exactly one not-supported error, a registered name none; every such
      error sits on spec.plugins and lists the whole registry. */
  lemma {:induction false} PluginErrorsExact(registered: seq<string>, plugins: set<string>, name: string)
    ensures CountNamed(PluginErrors(registered, plugins), name)
      == if name in plugins && name !in registered then 1 else 0
    ensures forall e :: e in PluginErrors(registered, plugins) ==>
      e.errorType == NotSupported && e.field == PluginsPath && e.detail == SupportedValues(registered)
      && e.badValue.Text? && e.badValue.s in plugins && e.badValue.s !in registered
  {
    var unknown := Unrecognised(registered, plugins);
    var names := SortedNames(unknown);
    CountNamedNotSupported(names, registered, name);
    forall e | e in PluginErrors(registered, plugins)
      ensures e.badValue.Text? && e.badValue.s in unknown
    {
      var i :| 0 <= i < |names| && e == NotSupportedError(names[i], registered);
      assert names[i] in multiset(names);
    }
  }

  /** The unknown-name errors come in strictly ascending order of name, and
      the names they carry are the unknown names, each once. */
  lemma {:induction false} PluginErrorsSorted(registered: seq<string>, plugins: set<string>)
    ensures var errors := PluginErrors(registered, plugins);
      |errors| == |Unrecognised(registered, plugins)|
      && forall i, j :: 0 <= i < j < |errors| ==> Less(errors[i].badValue.s, errors[j].badValue.s)
  {
    var unknown := Unrecognised(registered, plugins);
    var names := SortedNames(unknown);
    assert |names| == |multiset(names)| == |multiset(unknown)| == |unknown|;
  }

  // ---------------------------------------------------------------------
  // Second and third base rules: selectors

  /** A required error on spec.selector is reported exactly when neither
      sub-selector is present, and never more than once. */
  lemma {:induction false} SelectorRequiredIff(registered: seq<string>, policy: CertificateRequestPolicy, ext: Collaborators)
    ensures CountOf(BaseErrors(registered, policy, ext), Required, SelectorPath)
      == if policy.spec.selector.issuerRef.None? && policy.spec.selector.namespace.None? then 1 else 0
  {
    var selector := policy.spec.selector;
    var names := SortedNames(Unrecognised(registered, policy.spec.plugins));
    CountOfNotSupported(names, registered, Required, SelectorPath);
    CountOfAppend(PluginErrors(registered, policy.spec.plugins), SelectorErrors(selector), Required, SelectorPath);
    CountOfAppend(PluginErrors(registered, policy.spec.plugins) + SelectorErrors(selector),
      MatchLabelsErrors(selector, ext), Required, SelectorPath);
  }

  /** An invalid error on spec.selector.namespace.matchLabels is reported
      exactly when the namespace sub-selector is present, has labels, and
      they do not compile; it carries the labels and the compiler's text. */
  lemma {:induction false} MatchLabelsInvalidIff(registered: seq<string>, policy: CertificateRequestPolicy, ext: Collaborators)
    ensures var selector := policy.spec.selector;
      CountOf(BaseErrors(registered, policy, ext), Invalid, MatchLabelsPath) == (if LabelsRejected(selector, ext) then 1 else 0)
      && (LabelsRejected(selector, ext) ==>
            var labels := selector.namespace.value.matchLabels;
            FieldError(Invalid, MatchLabelsPath, Labels(labels), Message(ext.labelSelectorError(labels).value))
              in BaseErrors(registered, policy, ext))
  {
    var selector := policy.spec.selector;
    var names := SortedNames(Unrecognised(registered, policy.spec.plugins));
    CountOfNotSupported(names, registered, Invalid, MatchLabelsPath);
    CountOfAppend(PluginErrors(registered, policy.spec.plugins), SelectorErrors(selector), Invalid, MatchLabelsPath);
    CountOfAppend(PluginErrors(registered, policy.spec.plugins) + SelectorErrors(selector),
      MatchLabelsErrors(selector, ext), Invalid, MatchLabelsPath);
  }

  /** The base rules find nothing exactly when every plugin name is
      registered, a sub-selector is present, and the namespace labels, if
      any, compile. */
  lemma {:induction false} BaseErrorsEmptyIff(registered: seq<string>, policy: CertificateRequestPolicy, ext: Collaborators)
    ensures BaseErrors(registered, policy, ext) == [] <==> (
      && (forall name :: name in policy.spec.plugins ==> name in registered)
      && (policy.spec.selector.issuerRef.Some? || policy.spec.selector.namespace.Some?)
      && !LabelsRejected(policy.spec.selector, ext))
  {
    var plugins := policy.spec.plugins;
    PluginErrorsSorted(registered, plugins);
    var unknown := Unrecognised(registered, plugins);
    if forall name :: name in plugins ==> name in registered {
      assert unknown == {};
    } else {
      var name :| name in plugins && name !in registered;
      assert name in unknown;
    }
  }

  // ---------------------------------------------------------------------
  // Aggregating the webhooks

  /** FirstFailure finds the earliest failure: the result at that position
      failed and every earlier one responded. */
  lemma {:induction false} FirstFailureIff(rs: seq<WebhookResult>, k: nat)
    ensures FirstFailure(rs) == Some(k)
      <==> k < |rs| && rs[k].Failed? && forall j :: 0 <= j < k ==> rs[j].Responded?
    decreases |rs|
  {
    if rs != [] {
      var init := rs[..|rs| - 1];
      FirstFailureIff(init, k);
      if k < |rs| - 1 {
        assert forall j :: 0 <= j <= k ==> init[j] == rs[j];
      }
      if FirstFailure(init) == None {
        NoFailureAllResponded(init);
      }
    }
  }

  /** No failure means every result responded. */
  lemma {:induction false} NoFailureAllResponded(rs: seq<WebhookResult>)
    ensures FirstFailure(rs) == None <==> forall j :: 0 <= j < |rs| ==> rs[j].Responded?
    decreases |rs|
  {
    if rs != [] {
      var init := rs[..|rs| - 1];
      NoFailureAllResponded(init);
      assert forall j :: 0 <= j < |init| ==> init[j] == rs[j];
    }
  }

  /** One more result extends the run: its contribution is appended, and
      it is the first failure if it fails after none did. */
  lemma {:induction false} ExtendRun(rs: seq<WebhookResult>, i: nat)
    requires i < |rs|
    ensures Denials(rs[..i + 1]) == Denials(rs[..i]) + Contribution(rs[i])
    ensures FirstFailure(rs[..i]) == None ==>
      FirstFailure(rs[..i + 1]) == if rs[i].Failed? then Some(i) else None
  {
    assert rs[..i + 1][..i] == rs[..i];
  }

  /** A failure among the first n results is the first failure of all of
      them: results after it are never consulted. */
  lemma {:induction false} FirstFailurePrefix(rs: seq<WebhookResult>, n: nat, k: nat)
    requires n <= |rs|
    requires FirstFailure(rs[..n]) == Some(k)
    ensures FirstFailure(rs) == Some(k)
    decreases |rs| - n
  {
    if n < |rs| {
      assert rs[..n + 1][..n] == rs[..n];
      FirstFailurePrefix(rs, n + 1, k);
    } else {
      assert rs[..n] == rs;
    }
  }

  /** Denials concatenates in order: the errors of a longer run are those
      of its first part followed by those of the rest. */
  lemma {:induction false} DenialsAppend(a: seq<WebhookResult>, b: seq<WebhookResult>)
    ensures Denials(a + b) == Denials(a) + Denials(b)
    decreases |b|
  {
    if b != [] {
      var init := b[..|b| - 1];
      assert (a + b)[..|a + b| - 1] == a + init;
      DenialsAppend(a, init);
    } else {
      assert a + b == a;
    }
  }

  /** A webhook that approves, or that denies without errors, adds nothing:
      every denial error comes from a denying webhook. */
  lemma {:induction false} DenialsEmptyIff(rs: seq<WebhookResult>)
    ensures Denials(rs) == [] <==> forall j :: 0 <= j < |rs| ==> Contribution(rs[j]) == []
  {
    if forall j :: 0 <= j < |rs| ==> Contribution(rs[j]) == [] {
      QuietDenialsEmpty(rs);
    }
    if Denials(rs) == [] {
      forall j | 0 <= j < |rs|
        ensures Contribution(rs[j]) == []
      {
        DenialsAround(rs, j);
      }
    }
  }

  lemma {:induction false} QuietDenialsEmpty(rs: seq<WebhookResult>)
    requires forall j :: 0 <= j < |rs| ==> Contribution(rs[j]) == []
    ensures Denials(rs) == []
    decreases |rs|
  {
    if rs != [] {
      var init := rs[..|rs| - 1];
      assert forall j :: 0 <= j < |init| ==> init[j] == rs[j];
      QuietDenialsEmpty(init);
    }
  }

  /** The errors of the results split around any one of them: those of
      the results before it, its own contribution, those after it. */
  lemma {:induction false} DenialsAround(rs: seq<WebhookResult>, k: nat)
    requires k < |rs|
    ensures Denials(rs) == Denials(rs[..k]) + Contribution(rs[k]) + Denials(rs[k + 1..])
  {
    var before, after := rs[..k], rs[k + 1..];
    assert rs == before + [rs[k]] + after;
    assert Denials([rs[k]]) == Contribution(rs[k]) by {
      assert [rs[k]][..0] == [];
    }
    DenialsAppend(before, [rs[k]]);
    DenialsAppend(before + [rs[k]], after);
  }

  /** When no webhook fails, the result is the base errors followed by each
      denying webhook's errors in registration order. */
  lemma {:induction false} CoordinateSucceeds(registered: seq<string>, webhooks: seq<Webhook>, ext: Collaborators,
                           policy: CertificateRequestPolicy)
    requires forall j :: 0 <= j < |webhooks| ==> ext.validate(webhooks[j], policy).Responded?
    ensures Coordinate(registered, webhooks, ext, policy)
      == Success(BaseErrors(registered, policy, ext) + Denials(Results(webhooks, ext, policy)))
  {
    NoFailureAllResponded(Results(webhooks, ext, policy));
  }

  /** The coordinator succeeds with no field errors exactly when every
      plugin name is registered, a sub-selector is present, the namespace
      labels (if any) compile, and every webhook responds without adding
      errors. */
  lemma {:induction false} CoordinateCleanIff(registered: seq<string>, webhooks: seq<Webhook>, ext: Collaborators,
                                              policy: CertificateRequestPolicy)
    ensures Coordinate(registered, webhooks, ext, policy) == Success([]) <==> (
      && (forall name :: name in policy.spec.plugins ==> name in registered)
      && (policy.spec.selector.issuerRef.Some? || policy.spec.selector.namespace.Some?)
      && !LabelsRejected(policy.spec.selector, ext)
      && forall k :: 0 <= k < |webhooks| ==>
           ext.validate(webhooks[k], policy).Responded? && Contribution(ext.validate(webhooks[k], policy)) == [])
  {
    var rs := Results(webhooks, ext, policy);
    NoFailureAllResponded(rs);
    DenialsEmptyIff(rs);
    BaseErrorsEmptyIff(registered, policy, ext);
  }

  /** A failing webhook makes the coordinator fail with its error, discarding
      every field error, exactly when no earlier webhook failed. */
  lemma {:induction false} CoordinateFails(registered: seq<string>, webhooks: seq<Webhook>, ext: Collaborators,
                        policy: CertificateRequestPolicy, k: nat)
    requires k < |webhooks| && ext.validate(webhooks[k], policy).Failed?
    requires forall j :: 0 <= j < k ==> ext.validate(webhooks[j], policy).Responded?
    ensures Coordinate(registered, webhooks, ext, policy) == Failure(ext.validate(webhooks[k], policy).err)
  {
    FirstFailureIff(Results(webhooks, ext, policy), k);
  }
}
