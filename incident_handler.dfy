/** The `/incident-report` handler: an early-return chain that authenticates the request,
    decodes the slash command, parses its text, checks the sender address, resolves the
    service and creates the incident.  Every call into code outside this program (the
    signature verifier, body reading, slash-command decoding, the provider's listing and
    creation calls) is a collaborator whose answer is an input; the response records which
    of those steps ran, in order. */
module IncidentHandler {
  import opened Wrappers
  import opened CommandParser
  import opened ServiceResolver

  const StatusOK: int := 200
  const StatusUnauthorized: int := 401
  const StatusInternalServerError: int := 500

  const ParseErrorPrefix: string := "Error parsing input: "
  const NoEmailMessage: string := "No 'from' email configured. Set PAGERDUTY_EMAIL environment variable."
  const CheckErrorPrefix: string := "Error checking service: "
  const NotFoundMessage: string := "No such service found in PagerDuty"
  const CreateErrorPrefix: string := "Error creating incident: "
  const SuccessMessage: string := "Incident reported successfully"

  /** The provider's reference to another object, here the service an incident is for. */
  datatype APIReference = APIReference(id: string, refType: string)

  /** The body of the provider's incident-creation request. */
  datatype CreateIncidentOptions = CreateIncidentOptions(incidentType: string, title: string, service: APIReference)

  /** The decoded slash command; only its text is used. */
  datatype SlashCommand = SlashCommand(text: string)

  /** The steps of the handler that reach outside it, plus the parse of the command text. */
  datatype Step =
    | NewVerifier
    | ReadBody
    | WriteToVerifier
    | EnsureSignature
    | ParseSlashCommand
    | ParseText
    | ListServices(query: string)
    | CreateIncident(from: string, options: CreateIncidentOptions)

  /** The HTTP status, the text written to the response body, and the steps that ran. */
  datatype Response = Response(status: int, body: string, steps: seq<Step>)

  /** The answers of everything the handler calls outside this program. */
  datatype Collaborators = Collaborators(
    newVerifier: Outcome,
    readBody: Outcome,
    writeToVerifier: Outcome,
    ensureSignature: Outcome,
    slashCommand: Result<SlashCommand>,
    listServices: string -> Result<seq<Service>>,
    createIncident: (string, CreateIncidentOptions) -> Outcome)

  const AuthSteps: seq<Step> := [NewVerifier, ReadBody, WriteToVerifier, EnsureSignature]
  const ParseSteps: seq<Step> := AuthSteps + [ParseSlashCommand, ParseText]

  /** Every step of signature verification succeeded. */
  predicate Authenticated(c: Collaborators) {
    c.newVerifier.Pass? && c.readBody.Pass? && c.writeToVerifier.Pass? && c.ensureSignature.Pass?
  }

  /** The request is authentic and its slash command decoded. */
  predicate Decoded(c: Collaborators) {
    Authenticated(c) && c.slashCommand.Ok?
  }

  /** The parse of the slash command's text. */
  function Command(c: Collaborators): ParseResult
    requires Decoded(c)
  {
    ParseCommand(c.slashCommand.value.text)
  }

  /** Everything before the service lookup passed: the text parsed and a sender is configured. */
  predicate ReadyToResolve(c: Collaborators, fromEmail: string) {
    Decoded(c) && Command(c).err.Pass? && fromEmail != ""
  }

  /** The provider's answer to the listing for the parsed service name. */
  function Listing(c: Collaborators, fromEmail: string): Result<seq<Service>>
    requires ReadyToResolve(c, fromEmail)
  {
    c.listServices(Command(c).serviceName)
  }

  /** Some step calls the provider. */
  predicate CallsProvider(steps: seq<Step>) {
    exists i :: 0 <= i < |steps| && (steps[i].ListServices? || steps[i].CreateIncident?)
  }

  /** `createPagerDutyIncident`: builds the creation request for the service and sends it
      with the sender address; gives the call made and the provider's error, if any. */
  method CreatePagerDutyIncident(serviceID: string, description: string, fromEmail: string,
                                 create: (string, CreateIncidentOptions) -> Outcome)
    returns (call: Step, err: Outcome)
    ensures call.CreateIncident? && call.from == fromEmail
    ensures call.options.incidentType == "incident" && call.options.title == description
    ensures call.options.service == APIReference(serviceID, "service_reference")
    ensures err == create(fromEmail, call.options)
  {
    var options := CreateIncidentOptions("incident", description, APIReference(serviceID, "service_reference"));
    call := CreateIncident(fromEmail, options);
    err := create(fromEmail, options);
  }

  /** The handler.  Each outcome is listed with the exact steps that ran before it. */
  method HandleIncidentReport(c: Collaborators, fromEmail: string) returns (resp: Response)
    // Failures while verifying the signature: 500, or 401 for a bad signature; no body.
    ensures c.newVerifier.Fail? ==> resp == Response(StatusInternalServerError, "", AuthSteps[..1])
    ensures c.newVerifier.Pass? && c.readBody.Fail? ==>
      resp == Response(StatusInternalServerError, "", AuthSteps[..2])
    ensures c.newVerifier.Pass? && c.readBody.Pass? && c.writeToVerifier.Fail? ==>
      resp == Response(StatusInternalServerError, "", AuthSteps[..3])
    ensures c.newVerifier.Pass? && c.readBody.Pass? && c.writeToVerifier.Pass? && c.ensureSignature.Fail? ==>
      resp == Response(StatusUnauthorized, "", AuthSteps)
    // The platform's payload does not decode: 500.
    ensures Authenticated(c) && c.slashCommand.Err? ==>
      resp == Response(StatusInternalServerError, "", AuthSteps + [ParseSlashCommand])
    // The user's text does not parse: the usage message, before the sender check.
    ensures Decoded(c) && Command(c).err.Fail? ==>
      resp == Response(StatusOK, ParseErrorPrefix + Usage, ParseSteps)
    ensures Decoded(c) && Command(c).err.Pass? && fromEmail == "" ==>
      resp == Response(StatusOK, NoEmailMessage, ParseSteps)
    // The lookup: a listing error and "not found" are different answers.
    ensures ReadyToResolve(c, fromEmail) && Listing(c, fromEmail).Err? ==>
      resp == Response(StatusOK, CheckErrorPrefix + Listing(c, fromEmail).error,
                       ParseSteps + [ListServices(Command(c).serviceName)])
    ensures ReadyToResolve(c, fromEmail) && Listing(c, fromEmail).Ok? &&
            (forall k :: IsFirstExact(Listing(c, fromEmail).value, Command(c).serviceName, k) ==>
                         Listing(c, fromEmail).value[k].id == "") ==>
      resp == Response(StatusOK, NotFoundMessage, ParseSteps + [ListServices(Command(c).serviceName)])
    // Creation for the first exactly named service, titled with the description verbatim.
    ensures forall k :: ReadyToResolve(c, fromEmail) && Listing(c, fromEmail).Ok? &&
                        IsFirstExact(Listing(c, fromEmail).value, Command(c).serviceName, k) &&
                        Listing(c, fromEmail).value[k].id != "" ==>
      var options := CreateIncidentOptions("incident", Command(c).description,
                       APIReference(Listing(c, fromEmail).value[k].id, "service_reference"));
      var created := c.createIncident(fromEmail, options);
      resp == Response(StatusOK,
                       if created.Pass? then SuccessMessage else CreateErrorPrefix + created.error,
                       ParseSteps + [ListServices(Command(c).serviceName), CreateIncident(fromEmail, options)])
    // What the list above comes to.
    ensures resp.status == StatusUnauthorized <==>
      c.newVerifier.Pass? && c.readBody.Pass? && c.writeToVerifier.Pass? && c.ensureSignature.Fail?
    ensures resp.status != StatusOK ==>
      resp.body == "" && ParseText !in resp.steps && !CallsProvider(resp.steps)
    ensures CallsProvider(resp.steps) ==> ReadyToResolve(c, fromEmail)
    ensures resp.body == SuccessMessage <==>
      |resp.steps| == |ParseSteps| + 2 && resp.steps[|ParseSteps| + 1].CreateIncident? &&
      c.createIncident(fromEmail, resp.steps[|ParseSteps| + 1].options).Pass?
  {
    var steps := [NewVerifier];
    if c.newVerifier.Fail? {
      return Response(StatusInternalServerError, "", steps);
    }
    steps := steps + [ReadBody];
    if c.readBody.Fail? {
      return Response(StatusInternalServerError, "", steps);
    }
    steps := steps + [WriteToVerifier];
    if c.writeToVerifier.Fail? {
      return Response(StatusInternalServerError, "", steps);
    }
    steps := steps + [EnsureSignature];
    if c.ensureSignature.Fail? {
      return Response(StatusUnauthorized, "", steps);
    }

    steps := steps + [ParseSlashCommand];
    if c.slashCommand.Err? {
      return Response(StatusInternalServerError, "", steps);
    }
    var slashCommand := c.slashCommand.value;

    steps := steps + [ParseText];
    var parsed := ParseCommand(slashCommand.text);
    if parsed.err.Fail? {
      return Response(StatusOK, ParseErrorPrefix + parsed.err.error, steps);
    }

    if fromEmail == "" {
      return Response(StatusOK, NoEmailMessage, steps);
    }

    steps := steps + [ListServices(parsed.serviceName)];
    var serviceID, err := GetServiceID(parsed.serviceName, c.listServices(parsed.serviceName));
    if err.Fail? {
      assert (CheckErrorPrefix + err.error)[0] != SuccessMessage[0];
      return Response(StatusOK, CheckErrorPrefix + err.error, steps);
    }
    if serviceID == "" {
      return Response(StatusOK, NotFoundMessage, steps);
    }

    var call, created := CreatePagerDutyIncident(serviceID, parsed.description, fromEmail, c.createIncident);
    steps := steps + [call];
    if created.Fail? {
      assert (CreateErrorPrefix + created.error)[0] != SuccessMessage[0];
      return Response(StatusOK, CreateErrorPrefix + created.error, steps);
    }
    return Response(StatusOK, SuccessMessage, steps);
  }
}
