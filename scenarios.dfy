/** Concrete requests run through the contracts of the resolver and the handler: each result
    below follows from those contracts alone, so they show the contracts pin the outcome. */
module Scenarios {
  import opened Wrappers
  import opened CommandParser
  import opened ServiceResolver
  import opened IncidentHandler

  const Sender: string := "oncall@example.com"
  const Text: string := "\"Checkout\" \"Payments down\""

  /** The text of the scenarios parses to the service `Checkout` and its description. */
  lemma TextParses()
    ensures ParseCommand(Text) == ParseResult("Checkout", "Payments down", Pass)
  {
    assert Text == Quoted("Checkout", " ", "Payments down");
    ParseCommandRoundTrip("Checkout", " ", "Payments down");
  }

  /** A name that only contains the query is not a match:  API  does not select  API Gateway . */
  method QueryIsNotSubstringMatched() returns (id: string, err: Outcome)
    ensures id == "" && err == Pass
  {
    id, err := GetServiceID("API", Ok([Service("S1", "API Gateway")]));
  }

  /** An exact match after a near match is the one selected. */
  method ExactMatchAfterNearMatch() returns (id: string, err: Outcome)
    ensures id == "S2" && err == Pass
  {
    var services := [Service("S1", "API Gateway"), Service("S2", "API")];
    assert IsFirstExact(services, "API", 1);
    id, err := GetServiceID("API", Ok(services));
  }

  /** Valid signature, the directory lists `Checkout` as SVC1 and creation succeeds: one
      creation call for SVC1 titled with the description, and the success message. */
  method ReportSucceeds() returns (resp: Response)
    ensures resp.status == StatusOK && resp.body == SuccessMessage
    ensures resp.steps == ParseSteps + [ListServices("Checkout"),
              CreateIncident(Sender, CreateIncidentOptions("incident", "Payments down",
                                                           APIReference("SVC1", "service_reference")))]
  {
    TextParses();
    var c := Collaborators(Pass, Pass, Pass, Pass, Ok(SlashCommand(Text)),
                           query => Ok([Service("SVC1", "Checkout")]),
                           (from, options) => Pass);
    assert IsFirstExact(Listing(c, Sender).value, "Checkout", 0);
    resp := HandleIncidentReport(c, Sender);
  }

  /** The directory lists only `Checkout Service`: not found, and no creation call. */
  method ReportNotFound() returns (resp: Response)
    ensures resp == Response(StatusOK, NotFoundMessage, ParseSteps + [ListServices("Checkout")])
  {
    TextParses();
    var c := Collaborators(Pass, Pass, Pass, Pass, Ok(SlashCommand(Text)),
                           query => Ok([Service("SVC2", "Checkout Service")]),
                           (from, options) => Pass);
    resp := HandleIncidentReport(c, Sender);
  }

  /** A bad signature: 401, nothing parsed, no provider call. */
  method ReportBadSignature() returns (resp: Response)
    ensures resp.status == StatusUnauthorized && resp.body == ""
    ensures ParseSlashCommand !in resp.steps && ParseText !in resp.steps && !CallsProvider(resp.steps)
  {
    var c := Collaborators(Pass, Pass, Pass, Fail("invalid signature"), Ok(SlashCommand(Text)),
                           query => Ok([Service("SVC1", "Checkout")]),
                           (from, options) => Pass);
    resp := HandleIncidentReport(c, Sender);
  }

  /** Unquoted text: status 200 with the usage message once the text was parsed, and no
      provider call. */
  method ReportUnquotedText() returns (resp: Response)
    ensures resp.status == StatusOK && resp.body == ParseErrorPrefix + Usage
    ensures ParseText in resp.steps && !CallsProvider(resp.steps)
  {
    var c := Collaborators(Pass, Pass, Pass, Pass, Ok(SlashCommand("Checkout Payments down")),
                           query => Ok([Service("SVC1", "Checkout")]),
                           (from, options) => Pass);
    resp := HandleIncidentReport(c, Sender);
  }
}
