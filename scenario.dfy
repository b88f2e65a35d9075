/** Properties of the backend and front end together: what the page shows
    for the text `analyze` returns, once the HTTP endpoint has put it under
    `analysis_result` (backend/main.py, line 20). */
module Scenario {
  import opened Wrappers
  import opened PyStr
  import opened Json
  import opened Backend
  import opened Streamlit

  /** The response body the endpoint sends: `{"analysis_result": text}`. */
  function Envelope(text: string): (body: Json)
    ensures body.JObject? && Lookup(body.members, "analysis_result") == Some(JStr(text))
    ensures !Has(body.members, "result")
  {
    JObject([("analysis_result", JStr(text))])
  }

  /** The listing of a list value: what `ListingOf` gives for that list,
      which never raises. */
  function ListingOfItems(items: seq<Json>): (l: Listing)
    ensures ListingOf(JArray(items)) == Some(l)
  {
    if items == [] then NothingToList else Listed(Rendered(items))
  }

  /** The report as the model is asked to write it. */
  function CanonicalFields(n: int, skills: seq<Json>, projects: seq<Json>): Members {
    [("match_percentage", JStr(Decimal(n) + "%")),
     ("missing_skills", JArray(skills)),
     ("suggested_projects", JArray(projects))]
  }

  /** A non-empty analysis text is decoded; the outcome is that of the
      decoded value, unwrapped and renamed. */
  lemma {:induction false} NonEmptyTextIsDecoded(text: string, decode: string -> Option<Json>)
    requires text != ""
    ensures Outcome(200, Some(Envelope(text)), decode) ==
      match decode(text)
      case None => BadJson
      case Some(parsed) =>
        var p := Unwrap(parsed);
        if p.JObject? then Render(Normalized(p.members)) else Unexpected
  {
    var ms := Envelope(text).members;
    assert Get(ms, "analysis_result", JNull) == JStr(text);
    assert SelectPayload(ms) == JStr(text);
    assert DecodePayload(JStr(text), decode) == decode(text);
  }

  /** An empty analysis text is falsy, so the whole body is taken as the
      payload; unwrapping it yields the empty string, which is no dict, and
      the page ends in an unexpected error. */
  lemma {:induction false} EmptyTextIsUnexpected(decode: string -> Option<Json>)
    ensures Outcome(200, Some(Envelope("")), decode) == Unexpected
  {
    var resp := Envelope("").members;
    assert SelectPayload(resp) == JObject(resp);
    assert Unwrap(JObject(resp)) == JStr("");
  }

  /** A reply without a message or content, or whose content is only
      whitespace, becomes the empty analysis text, and hence an unexpected
      error on the page. */
  lemma {:induction false} EmptyReplyIsUnexpected(allText: string, jobDesc: string, chat: ChatRequest -> ChatOutcome,
                               decode: string -> Option<Json>)
    requires chat(Request(allText, jobDesc)).Replied?
    requires var c := ReplyContent(chat(Request(allText, jobDesc)).message);
      forall i :: 0 <= i < |c| ==> IsSpace(c[i])
    ensures Outcome(200, Some(Envelope(Analyze(allText, jobDesc, chat))), decode) == Unexpected
  {
    StripEmpty(ReplyContent(chat(Request(allText, jobDesc)).message));
    EmptyTextIsUnexpected(decode);
  }

  /** A failed model call is shown as "Could not parse JSON" whenever its
      marked error text does not decode. */
  lemma {:induction false} FailedCallIsBadJson(allText: string, jobDesc: string, e: string, chat: ChatRequest -> ChatOutcome,
                            decode: string -> Option<Json>)
    requires chat(Request(allText, jobDesc)) == Raised(e)
    requires decode(ErrorMarker + e) == None
    ensures Outcome(200, Some(Envelope(Analyze(allText, jobDesc, chat))), decode) == BadJson
  {
    NonEmptyTextIsDecoded(ErrorMarker + e, decode);
  }

  /** Where each key of the requested shape is found, and that no legacy
      name or wrapper key is among them. */
  lemma {:induction false} CanonicalLookups(n: int, skills: seq<Json>, projects: seq<Json>)
    ensures var ms := CanonicalFields(n, skills, projects);
      && Lookup(ms, "match_percentage") == Some(JStr(Decimal(n) + "%"))
      && Lookup(ms, "missing_skills") == Some(JArray(skills))
      && Lookup(ms, "suggested_projects") == Some(JArray(projects))
      && !Has(ms, "match_score") && !Has(ms, "missing") && !Has(ms, "projects")
      && !Has(ms, "analysis_result") && !Has(ms, "result")
  {
    var ms := CanonicalFields(n, skills, projects);
    var tail := ms[2..];
    assert tail == [("suggested_projects", JArray(projects))];
    assert Lookup(tail, "suggested_projects") == Some(JArray(projects));
    assert ms[1..][1..] == tail;
    assert Lookup(ms[1..], "suggested_projects") == Some(JArray(projects));
  }

  /** The requested shape has nothing to rename. */
  lemma {:induction false} CanonicalNormalized(n: int, skills: seq<Json>, projects: seq<Json>)
    ensures Normalized(CanonicalFields(n, skills, projects)) == CanonicalFields(n, skills, projects)
  {
    var ms := CanonicalFields(n, skills, projects);
    KeyMapDisjoint();
    CanonicalLookups(n, skills, projects);
    RenamedSettled(ms, KeyMap);
  }

  /** The requested shape lacks no field. */
  lemma {:induction false} CanonicalComplete(n: int, skills: seq<Json>, projects: seq<Json>)
    ensures MissingFields(CanonicalFields(n, skills, projects)) == []
  {
    CanonicalLookups(n, skills, projects);
    MissingFieldsEmpty(CanonicalFields(n, skills, projects));
  }

  /** The requested shape's score is the number before its `%`. */
  lemma {:induction false} CanonicalScore(n: int, skills: seq<Json>, projects: seq<Json>)
    ensures MatchScore(CanonicalFields(n, skills, projects)) == n
  {
    CanonicalLookups(n, skills, projects);
    ScoreOfPercent(n);
  }

  /** The requested shape's lists are drawn item by item. */
  lemma {:induction false} CanonicalListings(n: int, skills: seq<Json>, projects: seq<Json>)
    ensures ListingOf(Get(CanonicalFields(n, skills, projects), "missing_skills", JArray([]))) == Some(ListingOfItems(skills))
    ensures ListingOf(Get(CanonicalFields(n, skills, projects), "suggested_projects", JArray([]))) == Some(ListingOfItems(projects))
  {
    CanonicalLookups(n, skills, projects);
  }

  /** A report in exactly the requested shape passes through unchanged: no
      warning, the number before `%` as the score, and the two lists as
      given, minus blank entries. */
  lemma {:induction false} CanonicalReport(n: int, skills: seq<Json>, projects: seq<Json>, text: string,
                        decode: string -> Option<Json>)
    requires text != ""
    requires decode(text) == Some(JObject(CanonicalFields(n, skills, projects)))
    ensures Outcome(200, Some(Envelope(text)), decode) ==
      Displayed(Report(CanonicalFields(n, skills, projects), [], n, Clamp(n), BandOf(Clamp(n)),
                       ListingOfItems(skills), ListingOfItems(projects)))
  {
    var ms := CanonicalFields(n, skills, projects);
    NonEmptyTextIsDecoded(text, decode);
    CanonicalLookups(n, skills, projects);
    assert Unwrap(JObject(ms)) == JObject(ms);
    CanonicalNormalized(n, skills, projects);
    CanonicalComplete(n, skills, projects);
    CanonicalScore(n, skills, projects);
    CanonicalListings(n, skills, projects);
  }

  /** The legacy names `match_score`, `missing` and `projects` come out as
      the canonical names, and even in the canonical order. */
  lemma {:induction false} LegacyNamesNormalized(score: Json, missing: Json, projects: Json)
    ensures Normalized([("match_score", score), ("missing", missing), ("projects", projects)])
         == [("match_percentage", score), ("missing_skills", missing), ("suggested_projects", projects)]
  {
    var vs := [score, missing, projects];
    AllLegacyNormalized(vs);
    assert LegacyNamed(KeyMap, vs) == [("match_score", score), ("missing", missing), ("projects", projects)];
    assert CanonicalNamed(KeyMap, vs) == [("match_percentage", score), ("missing_skills", missing), ("suggested_projects", projects)];
  }

  /** A payload that is already a dict is not decoded again: it is shown
      just as the same dict arriving as JSON text would be. */
  lemma {:induction false} DecodedPayloadSameAsText(ms: Members, text: string, decode: string -> Option<Json>)
    requires ms != [] && text != ""
    requires decode(text) == Some(JObject(ms))
    ensures Outcome(200, Some(JObject([("analysis_result", JObject(ms))])), decode)
         == Outcome(200, Some(Envelope(text)), decode)
  {
    var body := [("analysis_result", JObject(ms))];
    assert Get(body, "analysis_result", JNull) == JObject(ms);
    assert SelectPayload(body) == JObject(ms);
    assert DecodePayload(JObject(ms), decode) == decode(text);
    NonEmptyTextIsDecoded(text, decode);
  }

  /** An example reply: a score of 66% with one missing skill and one
      suggested project. */
  const Reply: string := "{" + ReplyFields + "}"
  const ReplyFields: string :=
    "\"match_percentage\":\"66%\",\"missing_skills\":[\"" + ExampleSkill
    + "\"],\"suggested_projects\":[\"" + ExampleProject + "\"]"
  const ExampleSkill: string := "Kubernetes"
  const ExampleProject: string := "Deploy a service with Kubernetes"

  /** The dict `json.loads` reads from the example reply. */
  const ExampleFields: Members := CanonicalFields(66, [JStr(ExampleSkill)], [JStr(ExampleProject)])

  /** A trimmed, non-empty string item is drawn as itself. */
  lemma {:induction false} RenderedSingle(t: string)
    requires t != "" && Trimmed(t)
    ensures Rendered([JStr(t)]) == [Text(t)]
  {
    StripTrimmed(t);
    assert [JStr(t)][1..] == [];
  }

  /** The resume text of the one page. */
  lemma {:induction false} OnePageText(page: string)
    requires page != ""
    ensures AllText([Some(page)]) == page + "\n"
  {
    var pages := [Some(page)];
    assert pages[..0] == [];
  }

  /** The reply is sent on as it is. */
  lemma {:induction false} ReplyKept(allText: string, jobDesc: string, chat: ChatRequest -> ChatOutcome)
    requires chat(Request(allText, jobDesc)) == Replied(Some(Message(Some(Reply))))
    ensures Analyze(allText, jobDesc, chat) == Reply
  {
    assert Reply[0] == '{' && Reply[|Reply| - 1] == '}';
    StripTrimmed(Reply);
  }

  /** A reply in the requested shape ends on the page as the report it
      holds: no warning, its number as the score, its lists as given. */
  lemma {:induction false} RequestedShapeDisplayed(allText: string, jobDesc: string, reply: string, n: int,
                                skills: seq<Json>, projects: seq<Json>,
                                chat: ChatRequest -> ChatOutcome, decode: string -> Option<Json>)
    requires Analyze(allText, jobDesc, chat) == reply && reply != ""
    requires decode(reply) == Some(JObject(CanonicalFields(n, skills, projects)))
    ensures Outcome(200, Some(Envelope(Analyze(allText, jobDesc, chat))), decode) ==
      Displayed(Report(CanonicalFields(n, skills, projects), [], n, Clamp(n), BandOf(Clamp(n)),
                       ListingOfItems(skills), ListingOfItems(projects)))
  {
    CanonicalReport(n, skills, projects, reply, decode);
  }

  /** The example reply, whatever the resume and job description, once
      `json.loads` reads it as the dict it spells. */
  lemma {:induction false} ExampleReplyDisplayed(allText: string, jobDesc: string,
                              chat: ChatRequest -> ChatOutcome, decode: string -> Option<Json>)
    requires chat(Request(allText, jobDesc)) == Replied(Some(Message(Some(Reply))))
    requires decode(Reply) == Some(JObject(ExampleFields))
    ensures Outcome(200, Some(Envelope(Analyze(allText, jobDesc, chat))), decode)
         == Displayed(Report(ExampleFields, [], 66, 66, Orange,
                             Listed([Text(ExampleSkill)]), Listed([Text(ExampleProject)])))
  {
    ReplyKept(allText, jobDesc, chat);
    RequestedShapeDisplayed(allText, jobDesc, Reply, 66, [JStr(ExampleSkill)], [JStr(ExampleProject)], chat, decode);
    assert Clamp(66) == 66 && BandOf(66) == Orange;
    ExampleItems();
  }

  /** Both example items are drawn as they are written. */
  lemma {:induction false} ExampleItems()
    ensures ListingOfItems([JStr(ExampleSkill)]) == Listed([Text(ExampleSkill)])
    ensures ListingOfItems([JStr(ExampleProject)]) == Listed([Text(ExampleProject)])
  {
    RenderedSingle(ExampleSkill);
    RenderedSingle(ExampleProject);
  }

  /** A one-page resume answered with the example reply: the page's text and
      a newline are sent, and the page shows a score of 66 in the orange
      band, the one skill and the one project. */
  lemma {:induction false} OnePageExample(page: string, jobDesc: string,
                        chat: ChatRequest -> ChatOutcome, decode: string -> Option<Json>)
    requires page != ""
    requires chat(Request(page + "\n", jobDesc)) == Replied(Some(Message(Some(Reply))))
    requires decode(Reply) == Some(JObject(ExampleFields))
    ensures AllText([Some(page)]) == page + "\n"
    ensures Outcome(200, Some(Envelope(Analyze(AllText([Some(page)]), jobDesc, chat))), decode)
         == Displayed(Report(ExampleFields, [], 66, 66, Orange,
                             Listed([Text(ExampleSkill)]), Listed([Text(ExampleProject)])))
  {
    OnePageText(page);
    ExampleReplyDisplayed(page + "\n", jobDesc, chat, decode);
  }
}
