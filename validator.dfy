/** The admission webhook for policy.cert-manager.io resources
    (pkg/internal/webhook/validator.go): the validator object with its
    late-injected decoder, the validation coordinator, the readiness check,
    and the request handler that maps outcomes to admission responses. */
module Webhook {
  import opened Wrappers
  import opened Lexicographic
  import opened StringSort
  import opened PolicyApi
  import opened Rules

  /** The object decoder the controller manager injects; only its identity
      matters here. */
  datatype Decoder = Decoder(id: nat)

  class Validator {
    /** The plugin names a policy may configure; fixed at construction. */
    const registeredPlugins: seq<string>
    /** The pluggable validators, in registration order; fixed at construction. */
    const webhooks: seq<Webhook>
    /** Unset until the manager injects it. */
    var decoder: Option<Decoder>

    constructor (registeredPlugins: seq<string>, webhooks: seq<Webhook>)
      ensures this.registeredPlugins == registeredPlugins && this.webhooks == webhooks
      ensures decoder == None
      ensures Check().Some?
    {
      this.registeredPlugins := registeredPlugins;
      this.webhooks := webhooks;
      decoder := None;
    }

    /** Whether a name is exactly one of the registered plugin names. */
    method IsRegistered(name: string) returns (found: bool)
      ensures found <==> name in registeredPlugins
    {
      found := false;
      var j := 0;
      while j < |registeredPlugins|
        invariant 0 <= j <= |registeredPlugins|
        invariant !found && name !in registeredPlugins[..j]
      {
        if name == registeredPlugins[j] {
          found := true;
          break;
        }
        j := j + 1;
      }
      assert !found ==> registeredPlugins[..j] == registeredPlugins;
    }

    /** The plugin names not in the registry, in whatever order the plugin
        map yields them: the unknown names, each once. */
    method UnrecognisedNames(plugins: set<string>) returns (unrecognisedNames: seq<string>)
      ensures multiset(unrecognisedNames) == multiset(Unrecognised(registeredPlugins, plugins))
    {
      unrecognisedNames := [];
      var remaining := plugins;
      while remaining != {}
        invariant remaining <= plugins
        invariant multiset(unrecognisedNames) == multiset(Unrecognised(registeredPlugins, plugins - remaining))
        decreases remaining
      {
        var name :| name in remaining;
        var found := IsRegistered(name);
        var done := plugins - remaining;
        UnrecognisedGrows(registeredPlugins, done, name);
        if !found {
          unrecognisedNames := unrecognisedNames + [name];
        }
        assert plugins - (remaining - {name}) == done + {name};
        remaining := remaining - {name};
      }
      assert plugins - remaining == plugins;
    }

    /** Sorts the unknown names and turns each into a not-supported error:
        the first base rule's errors, whatever order the names came in. */
    method NotSupportedPluginErrors(unrecognisedNames: seq<string>, ghost plugins: set<string>)
      returns (el: seq<FieldError>)
      requires multiset(unrecognisedNames) == multiset(Unrecognised(registeredPlugins, plugins))
      ensures el == PluginErrors(registeredPlugins, plugins)
    {
      el := [];
      ghost var unknown := Unrecognised(registeredPlugins, plugins);
      if |unrecognisedNames| > 0 {
        var names := new string[|unrecognisedNames|](i requires 0 <= i < |unrecognisedNames| => unrecognisedNames[i]);
        assert names[..] == unrecognisedNames;
        SortStrings(names);
        ghost var sorted := names[..];
        assert sorted == SortedNames(unknown) by {
          SortedUnique(sorted, unknown);
        }
        for k := 0 to names.Length
          invariant |el| == k
          invariant forall m :: 0 <= m < k ==> el[m] == NotSupportedError(sorted[m], registeredPlugins)
        {
          el := el + [NotSupportedError(names[k], registeredPlugins)];
        }
      } else {
        SortedUnique([], unknown);
      }
    }

    /** The base rules, in order: unknown plugin names, a missing selector,
        namespace labels that do not compile. */
    method BaseRuleErrors(ext: Collaborators, policy: CertificateRequestPolicy) returns (el: seq<FieldError>)
      ensures el == BaseErrors(registeredPlugins, policy, ext)
    {
      var unrecognisedNames := UnrecognisedNames(policy.spec.plugins);
      el := NotSupportedPluginErrors(unrecognisedNames, policy.spec.plugins);

      var selector := policy.spec.selector;
      if selector.issuerRef.None? && selector.namespace.None? {
        el := el + [FieldError(Required, SelectorPath, Text(""), Message(SelectorHint))];
      }

      if selector.namespace.Some? && |selector.namespace.value.matchLabels| > 0 {
        var nsSel := selector.namespace.value;
        var err := ext.labelSelectorError(nsSel.matchLabels);
        if err.Some? {
          el := el + [FieldError(Invalid, MatchLabelsPath, Labels(nsSel.matchLabels), Message(err.value))];
        }
      }
    }

    /** Runs every registered webhook in order after the base rules, which
        produced `el`: stops at the first that fails, and otherwise appends
        the errors of each webhook that denies. */
    method RunWebhooks(ext: Collaborators, policy: CertificateRequestPolicy, el: seq<FieldError>,
                       ghost rs: seq<WebhookResult>)
      returns (r: Result<seq<FieldError>, ExecError>, ghost invoked: seq<Webhook>)
      requires |rs| == |webhooks| && forall j :: 0 <= j < |rs| ==> rs[j] == ext.validate(webhooks[j], policy)
      ensures FirstFailure(rs).Some? ==> r == Failure(rs[FirstFailure(rs).value].err)
      ensures FirstFailure(rs).None? ==> r == Success(el + Denials(rs))
      ensures FirstFailure(rs).Some? ==> invoked == webhooks[..FirstFailure(rs).value + 1]
      ensures FirstFailure(rs).None? ==> invoked == webhooks
    {
      var errors := el;
      invoked := [];
      var i := 0;
      while i < |webhooks|
        invariant 0 <= i <= |webhooks|
        invariant invoked == webhooks[..i]
        invariant FirstFailure(rs[..i]) == None
        invariant errors == el + Denials(rs[..i])
      {
        var response := ext.validate(webhooks[i], policy);
        invoked := invoked + [webhooks[i]];
        assert invoked == webhooks[..i + 1];
        assert response == rs[i];
        ExtendRun(rs, i);
        if response.Failed? {
          FirstFailurePrefix(rs, i + 1, i);
          r := Failure(response.err);
          return;
        }
        if !response.allowed {
          errors := errors + response.errors;
        }
        i := i + 1;
      }
      assert rs[..i] == rs;
      assert invoked == webhooks;
      r := Success(errors);
    }

    /** Validates a policy with the base rules and then every registered
        webhook in order. The result is Coordinate's: the first webhook
        failure, or the base errors followed by the denying webhooks'
        errors. `invoked` records which webhooks were called: all of them,
        or those up to and including the first that failed. */
    method ValidatePolicy(ext: Collaborators, policy: CertificateRequestPolicy)
      returns (r: Result<seq<FieldError>, ExecError>, ghost invoked: seq<Webhook>)
      ensures r == Coordinate(registeredPlugins, webhooks, ext, policy)
      ensures match FirstFailure(Results(webhooks, ext, policy))
        case Some(k) => invoked == webhooks[..k + 1]
        case None => invoked == webhooks
    {
      var el := BaseRuleErrors(ext, policy);
      r, invoked := RunWebhooks(ext, policy, el, Results(webhooks, ext, policy));
    }

    /** Sets the decoder; injection never fails. */
    method InjectDecoder(d: Option<Decoder>) returns (err: Option<string>)
      modifies this`decoder
      ensures decoder == d
      ensures err == None
      ensures d.Some? ==> Check() == None
    {
      decoder := d;
      err := None;
    }

    /** The readiness check: ready exactly when a decoder has been injected. */
    function Check(): (r: Option<string>)
      reads this
      ensures r == None <==> decoder.Some?
    {
      if decoder.Some? then None else Some("not ready")
    }
  }

  /** The denial text for a request of a kind other than the policy kind. */
  function UnrecognisedMessage(kind: GroupVersionKind): string
  {
    "validation request for unrecognised resource type: " + kind.group + "/" + kind.version + " " + kind.kind
  }

  /** The handler's response to an admission request of the given kind, whose
      object decodes as `decoded` (the decoder's error text on failure).
      It errors only with 400 or 500; it allows only a decoded policy the
      coordinator finds nothing wrong with; and a denial that aggregates
      field errors carries exactly the coordinator's non-empty list. */
  ghost function Handle(registered: seq<string>, webhooks: seq<Webhook>, ext: Collaborators,
                        requestKind: Option<GroupVersionKind>,
                        decoded: Result<CertificateRequestPolicy, string>): (r: Response)
    ensures r.Errored? ==> r.code == StatusBadRequest || r.code == StatusInternalServerError
    ensures r.Allowed? ==>
      && requestKind == Some(PolicyKind) && decoded.Success?
      && Coordinate(registered, webhooks, ext, decoded.value) == Success([])
    ensures r.Denied? && r.denial.Aggregate? ==>
      && requestKind == Some(PolicyKind) && decoded.Success?
      && r.denial.errors != []
      && Coordinate(registered, webhooks, ext, decoded.value) == Success(r.denial.errors)
  {
    match requestKind
    case None => Errored(StatusBadRequest, "no resource kind sent in request")
    case Some(kind) =>
      if kind == PolicyKind then
        match decoded
        case Failure(e) => Errored(StatusBadRequest, e)
        case Success(policy) =>
          match Coordinate(registered, webhooks, ext, policy)
          case Failure(e) => Errored(StatusInternalServerError, e.message)
          case Success(el) =>
            if |el| > 0 then Denied(Aggregate(el)) else Allowed("CertificateRequestPolicy validated")
      else
        Denied(Reason(UnrecognisedMessage(kind)))
  }

  /** A request of any kind other than the policy kind is denied, never
      errored, with a message that ends in its group/version and kind. */
  lemma {:induction false} HandleUnrecognisedKind(registered: seq<string>, webhooks: seq<Webhook>, ext: Collaborators,
                               kind: GroupVersionKind, decoded: Result<CertificateRequestPolicy, string>)
    requires kind != PolicyKind
    ensures var r := Handle(registered, webhooks, ext, Some(kind), decoded);
      r.Denied? && r.denial.Reason?
      && var text := r.denial.text;
         var named := kind.group + "/" + kind.version + " " + kind.kind;
         |named| <= |text| && text[|text| - |named|..] == named
  {
  }

  /** The handler errors exactly when the kind is missing, the object does
      not decode (both status 400), or a webhook fails (status 500). */
  lemma {:induction false} HandleErroredIff(registered: seq<string>, webhooks: seq<Webhook>, ext: Collaborators,
                         requestKind: Option<GroupVersionKind>,
                         decoded: Result<CertificateRequestPolicy, string>)
    ensures var r := Handle(registered, webhooks, ext, requestKind, decoded);
      var isPolicy := requestKind == Some(PolicyKind);
      var failed := isPolicy && decoded.Success?
        && exists k :: 0 <= k < |webhooks| && ext.validate(webhooks[k], decoded.value).Failed?;
      (r.Errored? <==> requestKind.None? || (isPolicy && decoded.Failure?) || failed)
      && (r.Errored? ==> (r.code == StatusInternalServerError <==> failed))
      && (r.Errored? ==> (r.code == StatusBadRequest <==> !failed))
  {
    if requestKind == Some(PolicyKind) && decoded.Success? {
      var rs := Results(webhooks, ext, decoded.value);
      NoFailureAllResponded(rs);
    }
  }

  /** A request is allowed exactly when it is of the policy kind, decodes,
      names only registered plugins, has a sub-selector, has namespace labels
      that compile (or none), and no webhook fails or denies with errors. */
  lemma {:induction false} HandleAllowedIff(registered: seq<string>, webhooks: seq<Webhook>, ext: Collaborators,
                         requestKind: Option<GroupVersionKind>,
                         decoded: Result<CertificateRequestPolicy, string>)
    ensures Handle(registered, webhooks, ext, requestKind, decoded).Allowed? <==> (
      requestKind == Some(PolicyKind) && decoded.Success?
      && var policy := decoded.value;
         && (forall name :: name in policy.spec.plugins ==> name in registered)
         && (policy.spec.selector.issuerRef.Some? || policy.spec.selector.namespace.Some?)
         && !LabelsRejected(policy.spec.selector, ext)
         && forall k :: 0 <= k < |webhooks| ==>
              ext.validate(webhooks[k], policy).Responded? && Contribution(ext.validate(webhooks[k], policy)) == [])
  {
    if requestKind == Some(PolicyKind) && decoded.Success? {
      var policy := decoded.value;
      CoordinateCleanIff(registered, webhooks, ext, policy);
      assert Handle(registered, webhooks, ext, requestKind, decoded).Allowed?
        <==> Coordinate(registered, webhooks, ext, policy) == Success([]);
    }
  }

  /** Unknown plugin names {"b", "a"} with an empty registry are reported as
      two not-supported errors, "a" first. */
  lemma {:induction false} UnknownNamesInOrder()
    ensures PluginErrors([], {"b", "a"}) == [NotSupportedError("a", []), NotSupportedError("b", [])]
  {
    var names := SortedNames(Unrecognised([], {"b", "a"}));
    assert names == ["a", "b"] by {
      UnknownNamesSorted();
    }
    assert NotSupportedErrors(names, []) == [NotSupportedError("a", []), NotSupportedError("b", [])];
  }

  lemma {:induction false} UnknownNamesSorted()
    ensures SortedNames(Unrecognised([], {"b", "a"})) == ["a", "b"]
  {
    var unknown := Unrecognised([], {"b", "a"});
    var names := ["a", "b"];
    assert Sorted(names) by {
      assert names[0][0] == 'a' && names[1][0] == 'b';
    }
    assert multiset(names) == multiset(unknown) by {
      assert unknown == {"a", "b"};
      assert multiset(unknown) == multiset{"a", "b"};
    }
    SortedUnique(names, unknown);
  }
}
