/** The values the validator reads and produces: the CertificateRequestPolicy
    resource (only the parts the validator looks at), Kubernetes field errors,
    what a pluggable webhook returns, and admission responses. */
module PolicyApi {
  import opened Wrappers

  /** A group/version/kind triple naming the type of a requested resource. */
  datatype GroupVersionKind = GroupVersionKind(group: string, version: string, kind: string)

  /** The only kind the validator accepts. */
  const PolicyKind := GroupVersionKind("policy.cert-manager.io", "v1alpha1", "CertificateRequestPolicy")

  /** The issuer-reference sub-selector. The validator only asks whether it
      is present, so its matchers are not modelled. */
  datatype IssuerRefSelector = IssuerRefSelector

  /** The namespace sub-selector; the validator reads its label matchers. */
  datatype NamespaceSelector = NamespaceSelector(matchLabels: map<string, string>)

  /** Both sub-selectors are optional and independent (nil pointers in Go). */
  datatype Selector = Selector(issuerRef: Option<IssuerRefSelector>, namespace: Option<NamespaceSelector>)

  /** The keys of the policy's plugin map; each plugin's configuration is
      never read by the validator. */
  datatype PolicySpec = PolicySpec(plugins: set<string>, selector: Selector)

  datatype CertificateRequestPolicy = CertificateRequestPolicy(name: string, spec: PolicySpec)

  /** A path into the resource, one element per field name (`spec.selector`
      is ["spec", "selector"]). */
  type Path = seq<string>

  /** The kind of a field error. The base rules produce the first three; a
      webhook may report any kind. */
  datatype ErrorType = Required | Invalid | NotSupported | OtherType(name: string)

  /** The offending value recorded in a field error. */
  datatype BadValue = Text(s: string) | Labels(labels: map<string, string>) | OtherValue

  /** A human-readable detail, or, for a not-supported error, the list of
      values that are supported (rendered into text by the field package). */
  datatype Detail = Message(text: string) | SupportedValues(values: seq<string>)

  datatype FieldError = FieldError(errorType: ErrorType, field: Path, badValue: BadValue, detail: Detail)

  /** An error in running validation itself (not a reason to deny). */
  datatype ExecError = ExecError(message: string)

  /** A registered webhook, identified by its name. */
  datatype Webhook = Webhook(name: string)

  /** What one webhook's Validate call returns: a verdict with its field
      errors, or an execution error. */
  datatype WebhookResult =
    | Responded(allowed: bool, errors: seq<FieldError>)
    | Failed(err: ExecError)

  /** The calls the validator makes into code outside this model:
      each webhook's Validate, and the compilation of a label map into a
      label selector (None when it compiles, the error text otherwise). */
  datatype Collaborators = Collaborators(
    validate: (Webhook, CertificateRequestPolicy) -> WebhookResult,
    labelSelectorError: map<string, string> -> Option<string>)

  /** The message of a denial: literal text, or the aggregate of a field
      error list (whose rendering to text is left to the field package). */
  datatype DenialMessage = Reason(text: string) | Aggregate(errors: seq<FieldError>)

  /** An admission response, reduced to its variant, status code and message. */
  datatype Response =
    | Errored(code: int, message: string)
    | Denied(denial: DenialMessage)
    | Allowed(message: string)

  const StatusBadRequest := 400
  const StatusInternalServerError := 500
}
