# approver-policy admission validator, in Dafny

This project models the validating admission webhook of cert-manager's
approver-policy for `CertificateRequestPolicy` resources
(`pkg/internal/webhook/validator.go`), and proves what it guarantees.

- **Validator** (class `Webhook.Validator`): the registered plugin names and
  the registered webhooks, fixed at construction, and the decoder handle the
  controller manager injects later. `InjectDecoder` sets the handle; `Check`
  is the readiness probe.
- **Validation coordinator** (`Webhook.Validator.ValidatePolicy` and its
  helpers). It runs the base rules and then each webhook in registration
  order. It is proved to compute the function `Rules.Coordinate`:
  - the first webhook failure, with no field errors;
  - otherwise, in this order: the not-supported errors for unknown plugin
    names, sorted by name; the required-selector error; the matchLabels error;
    and the errors of every webhook that denied.
  A ghost trace proves that no webhook runs after the first one that fails.
- **Plugin-name order** (`Lexicographic`, `StringSort`): Go's string order and
  `sort.Strings`. The sorted names are proved to be the single ascending
  arrangement of the unknown-name set. So the errors do not depend on the
  order in which the plugin map is iterated.
- **Request handler** (`Webhook.Handle`). It maps the request kind, the
  decode result and the coordinator's result to an admission response:
  `Errored(400)`, `Errored(500)`, `Denied` or `Allowed`. Lemmas characterise
  each outcome exactly.

Calls into code outside this model are parameters. Each webhook's `Validate`
and the compilation of namespace labels into a label selector are function
values in `PolicyApi.Collaborators`. The decoder's result is an input of
`Handle`.

## Model

| member | source | states |
|---|---|---|
| `Webhook.Validator.constructor` | pkg/internal/webhook/validator.go:39-48 | a new validator keeps the given registry and webhooks, has no decoder and is not ready |
| `Webhook.Validator.IsRegistered` | pkg/internal/webhook/validator.go:104-110 | the registry scan finds a name exactly when it is equal to some registered name |
| `Webhook.Validator.UnrecognisedNames` | pkg/internal/webhook/validator.go:102-115 | the collected names are the plugin names outside the registry, each exactly once, whatever the map's iteration order |
| `Webhook.Validator.NotSupportedPluginErrors` | pkg/internal/webhook/validator.go:117-123 | sorting the collected names and emitting one error each yields exactly `PluginErrors`, independent of the collection order |
| `Webhook.Validator.BaseRuleErrors` | pkg/internal/webhook/validator.go:96-133 | the base rules yield the plugin errors, then the selector error, then the matchLabels error (`BaseErrors`) |
| `Webhook.Validator.RunWebhooks` | pkg/internal/webhook/validator.go:135-145 | the webhook loop returns the first failure's error and invokes exactly the webhooks up to it, or returns the base errors followed by every denying webhook's errors after invoking all of them |
| `Webhook.Validator.ValidatePolicy` | pkg/internal/webhook/validator.go:95-146 | the result is `Coordinate`; the webhooks invoked are exactly those up to and including the first that fails, or all of them |
| `Webhook.Validator.InjectDecoder` | pkg/internal/webhook/validator.go:150-156 | the decoder becomes the injected one, no other field changes, no error is returned, and a non-nil decoder makes the validator ready |
| `Webhook.Validator.Check` | pkg/internal/webhook/validator.go:160-169 | readiness succeeds exactly when a decoder is set |
| `Webhook.Handle` | pkg/internal/webhook/validator.go:52-91 | the handler errors only with 400 or 500; it allows only a decoded policy of the policy kind for which the coordinator returns an empty list; a denial that aggregates field errors carries exactly the coordinator's non-empty list |
| `Webhook.HandleUnrecognisedKind` | pkg/internal/webhook/validator.go:88-89 | a request of any other kind is denied, never errored, with a message ending in its group/version and kind |
| `Webhook.HandleErroredIff` | pkg/internal/webhook/validator.go:56-78 | the handler errors exactly for a missing kind or an undecodable policy (400) or a failing webhook (500) |
| `Webhook.HandleAllowedIff` | pkg/internal/webhook/validator.go:56-86 | a request is allowed exactly when it is a decodable policy with only registered plugins, a sub-selector, compilable labels, and no webhook that fails or denies with errors |
| `Webhook.UnknownNamesInOrder` | pkg/internal/webhook/validator.go:117-122 | unknown names {"b", "a"} produce two not-supported errors, "a" first |
| `Rules.SelectorErrors` | pkg/internal/webhook/validator.go:125-127 | the selector rule reports at most one error, a required error on spec.selector, and reports it exactly when both sub-selectors are missing |
| `Rules.MatchLabelsErrors` | pkg/internal/webhook/validator.go:129-133 | the labels rule reports at most one error, exactly when the namespace labels are non-empty and fail to compile; that error is an invalid error on matchLabels carrying the labels and the compiler's text |
| `Rules.Coordinate` | pkg/internal/webhook/validator.go:95-146 | the coordinator fails exactly when some webhook fails, and a success begins with the base-rule errors |
| `Rules.PluginErrorsExact` | pkg/internal/webhook/validator.go:102-123 | each plugin name outside the registry gets exactly one not-supported error and a registered name none; every such error is on spec.plugins and lists the full registry |
| `Rules.PluginErrorsSorted` | pkg/internal/webhook/validator.go:117-122 | there are as many unknown-name errors as unknown names, in strictly ascending order of name |
| `Rules.SelectorRequiredIff` | pkg/internal/webhook/validator.go:125-127 | the base rules report a required error on spec.selector once when both sub-selectors are missing, and otherwise never |
| `Rules.MatchLabelsInvalidIff` | pkg/internal/webhook/validator.go:129-133 | an invalid matchLabels error appears once, carrying the labels and the compiler's text, exactly when the namespace selector has labels that fail to compile; otherwise never |
| `Rules.UnrecognisedGrows` | pkg/internal/webhook/validator.go:102-115 | scanning one more plugin name adds it to the unknown names exactly when it is not registered |
| `Rules.BaseErrorsEmptyIff` | pkg/internal/webhook/validator.go:102-133 | the base rules report nothing exactly when every plugin name is registered, a sub-selector is present and the namespace labels, if any, compile |
| `Rules.FirstFailure` | pkg/internal/webhook/validator.go:135-139 | a reported failure position is in range and that webhook failed |
| `Rules.FirstFailureIff` | pkg/internal/webhook/validator.go:135-139 | the failure that aborts validation is the earliest one: that webhook failed and every earlier one responded |
| `Rules.NoFailureAllResponded` | pkg/internal/webhook/validator.go:135-139 | validation is not aborted exactly when every webhook responds |
| `Rules.ExtendRun` | pkg/internal/webhook/validator.go:135-145 | one more webhook appends its denial errors to those before it, and becomes the first failure when it fails after none did |
| `Rules.FirstFailurePrefix` | pkg/internal/webhook/validator.go:135-139 | a failure among the first webhooks decides the result; later webhooks cannot change it |
| `Rules.CoordinateFails` | pkg/internal/webhook/validator.go:135-139 | when webhook k fails after all earlier ones responded, the coordinator returns its error and no field errors |
| `Rules.CoordinateSucceeds` | pkg/internal/webhook/validator.go:135-145 | when no webhook fails, the result is the base errors followed by the webhooks' denial errors |
| `Rules.DenialsAppend` | pkg/internal/webhook/validator.go:140-142 | webhook errors are concatenated in registration order |
| `Rules.DenialsAround` | pkg/internal/webhook/validator.go:140-142 | each webhook's own errors sit between those of the webhooks before it and those after it |
| `Rules.DenialsEmptyIff` | pkg/internal/webhook/validator.go:140-142 | the webhooks add no errors exactly when none of them denies with errors; approving webhooks add nothing |
| `Rules.CoordinateCleanIff` | pkg/internal/webhook/validator.go:95-146 | the coordinator succeeds with an empty list exactly when the base rules find nothing and every webhook responds without adding errors |
| `Rules.QuietDenialsEmpty` | pkg/internal/webhook/validator.go:140-142 | webhooks that each add no errors add none together |
| `Lexicographic.SortedNames` | pkg/internal/webhook/validator.go:117-122 | the ascending arrangement of a name set is strictly sorted and a permutation of the set |
| `Lexicographic.SortedUnique` | pkg/internal/webhook/validator.go:117-122 | every sorted permutation of a name set is that arrangement, so the output order does not depend on the input order |
| `Lexicographic.PrependLeast` | pkg/internal/webhook/validator.go:117-122 | the least name followed by an ascending arrangement of the rest is an ascending arrangement of the whole set |
| `Lexicographic.HeadIsLeast` | pkg/internal/webhook/validator.go:117-122 | the first of the sorted names is the least unknown name |
| `Lexicographic.RemoveHead` | pkg/internal/webhook/validator.go:117-122 | the sorted names after the first are a permutation of the set without it |
| `Lexicographic.Least` | pkg/internal/webhook/validator.go:119 | a non-empty name set has a member at or before all others |
| `Lexicographic.BelowReflexive` | pkg/internal/webhook/validator.go:119 | string order is reflexive |
| `Lexicographic.BelowAntisymmetric` | pkg/internal/webhook/validator.go:119 | string order is antisymmetric |
| `Lexicographic.BelowTransitive` | pkg/internal/webhook/validator.go:119 | string order is transitive |
| `Lexicographic.BelowTotal` | pkg/internal/webhook/validator.go:119 | any two strings are comparable |
| `StringSort.SortStrings` | pkg/internal/webhook/validator.go:119 | sorting in place leaves an ascending permutation of the names |

## Left out

- Webhooks are assumed not to modify the policy they are passed. Go hands every webhook the same policy pointer, so one webhook's `Validate` could change what later webhooks see; in the model each webhook sees the decoded policy (`PolicyApi.Collaborators`, `Rules.Results`), and `Rules.CoordinateFails`, `Rules.CoordinateCleanIff` and `Webhook.HandleAllowedIff` state their conditions on that policy.
- The read/write lock around the decoder. Its point is concurrency; field accesses are modelled sequentially.
- Logging, `context.Context` propagation and cancellation, the `lister` client, and the HTTP request that `check` ignores.
- The internals of decoding, of each webhook's `Validate` and of label-selector compilation. These are foreign calls. They appear as an input value (`decoded`) and as function values (`Collaborators`).
- Decoding before a decoder has been injected. The Go handler calls `Decode` on a nil decoder; the model takes the decode result as given and does not look at the decoder field.
- The text of `el.ToAggregate().Error()` and of a not-supported error's detail. A denial carries the field error list itself (`Aggregate`), and a not-supported error carries the supported names as a list. Responses keep only their variant, status code and message.
- `StringSort.SortStrings`: is the insertion sort Go uses for short slices; pdqsort, which Go uses for longer ones, is not modelled, because every in-place sort of the unknown names leaves the same result. The names are distinct, so stability does not matter either.
- Go compares strings by their UTF-8 bytes; the model compares code points. The two orders agree on valid UTF-8. Strings holding invalid UTF-8 are not modelled.
- `Webhook.Handle` is a ghost function stated over `Rules.Coordinate`, the function that `ValidatePolicy` is proved to compute. It does not call the method, because functions cannot.
- The model follows the Go code in three places a reader might not expect:
  - `InjectDecoder` accepts a nil decoder, which makes the validator not ready again. The handle can therefore revert.
  - Acceptance needs at least one sub-selector to be present, even an empty one. It does not need exactly one non-empty sub-selector.
  - A webhook that allows the policy but also returns errors adds none of them.
