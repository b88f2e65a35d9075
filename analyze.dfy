/** The backend's text assembly (backend/analyze.py): the resume text put
    together from the PDF's pages, the two-turn conversation sent to the
    language model, and the string returned from the model's reply or from
    the failure of the call.

    A page is what `page.extract_text()` gave for it (`None` or a string);
    the chat call is a parameter `chat` from the request to its outcome. */
module Backend {
  import opened Wrappers
  import opened PyStr

  // ---------- convert_to_text ----------

  /** `if text:` — a page contributes only when its extracted text is a
      non-empty string. */
  predicate HasText(page: Option<string>) {
    page.Some? && page.value != ""
  }

  /** What one page adds to the resume text. */
  function PageChunk(page: Option<string>): (r: string)
    ensures HasText(page) ==> r == page.value + "\n"
    ensures !HasText(page) ==> r == ""
  {
    if HasText(page) then page.value + "\n" else ""
  }

  /** The resume text of a document: the chunks of its pages in page order. */
  function AllText(pages: seq<Option<string>>): string
  {
    if pages == [] then ""
    else AllText(pages[..|pages| - 1]) + PageChunk(pages[|pages| - 1])
  }

  /** `convert_to_text`: one pass over the pages, appending each non-empty
      page text and a newline to the accumulated text. */
  method ConvertToText(pages: seq<Option<string>>) returns (allText: string)
    ensures allText == AllText(pages)
  {
    allText := "";
    for i := 0 to |pages|
      invariant allText == AllText(pages[..i])
    {
      assert pages[..i + 1][..i] == pages[..i];
      var text := pages[i];
      if text.Some? && text.value != "" {
        allText := allText + text.value + "\n";
      }
    }
    assert pages[..|pages|] == pages;
  }

  /** The text of two runs of pages is the text of the first followed by the
      text of the second: pages are read in order and independently. */
  lemma {:induction false} AllTextAppend(p: seq<Option<string>>, q: seq<Option<string>>)
    ensures AllText(p + q) == AllText(p) + AllText(q)
  {
    if q == [] {
      assert p + q == p;
    } else {
      AllTextAppend(p, q[..|q| - 1]);
      AllTextAppendStep(p, q);
    }
  }

  /** The step of the induction: one more page at the end of `q`. */
  lemma {:induction false} AllTextAppendStep(p: seq<Option<string>>, q: seq<Option<string>>)
    requires q != []
    requires AllText(p + q[..|q| - 1]) == AllText(p) + AllText(q[..|q| - 1])
    ensures AllText(p + q) == AllText(p) + AllText(q)
  {
    DropLastOfAppend(p, q);
    AllTextLast(p + q);
    AllTextLast(q);
    AppendAssoc(AllText(p), AllText(q[..|q| - 1]), PageChunk(q[|q| - 1]));
  }

  /** A non-empty run of pages reads as its pages but the last, then the last. */
  lemma {:induction false} AllTextLast(pages: seq<Option<string>>)
    requires pages != []
    ensures AllText(pages) == AllText(pages[..|pages| - 1]) + PageChunk(pages[|pages| - 1])
  {
  }

  lemma {:induction false} AppendAssoc(a: string, b: string, c: string)
    ensures (a + b) + c == a + (b + c)
  {
  }

  /** Dropping the last element of `p + q`, for a non-empty `q`, drops it from `q`. */
  lemma {:induction false} DropLastOfAppend(p: seq<Option<string>>, q: seq<Option<string>>)
    requires q != []
    ensures (p + q)[..|p + q| - 1] == p + q[..|q| - 1]
    ensures (p + q)[|p + q| - 1] == q[|q| - 1]
  {
  }

  /** The text of a single page is that page's chunk. */
  lemma {:induction false} SinglePage(page: Option<string>)
    ensures AllText([page]) == PageChunk(page)
  {
    assert [page][..0] == [];
  }

  /** Cutting the pages anywhere cuts the text at the same place. */
  lemma {:induction false} AllTextSplit(pages: seq<Option<string>>, i: int)
    requires 0 <= i <= |pages|
    ensures AllText(pages) == AllText(pages[..i]) + AllText(pages[i..])
  {
    assert pages == pages[..i] + pages[i..];
    AllTextAppend(pages[..i], pages[i..]);
  }

  /** The text from page `i` on starts with that page's chunk. */
  lemma {:induction false} ChunkFirst(pages: seq<Option<string>>, i: int)
    requires 0 <= i < |pages|
    ensures AllText(pages[i..]) == PageChunk(pages[i]) + AllText(pages[i + 1..])
  {
    var rest := pages[i..];
    AllTextSplit(rest, 1);
    assert rest[..1] == [pages[i]] && rest[1..] == pages[i + 1..];
    SinglePage(pages[i]);
  }

  /** A page with text shows up verbatim, followed by a newline, between the
      text of the pages before it and the text of the pages after it. */
  lemma {:induction false} PageTextAt(pages: seq<Option<string>>, i: int)
    requires 0 <= i < |pages| && HasText(pages[i])
    ensures AllText(pages) == AllText(pages[..i]) + pages[i].value + "\n" + AllText(pages[i + 1..])
  {
    AllTextSplit(pages, i);
    ChunkFirst(pages, i);
  }

  /** A page without text (`None` or `""`) changes nothing, wherever it is,
      and the pages after it are still read. */
  lemma {:induction false} SkippedPage(p: seq<Option<string>>, blank: Option<string>, q: seq<Option<string>>)
    requires !HasText(blank)
    ensures AllText(p + [blank] + q) == AllText(p + q)
  {
    calc {
      AllText(p + [blank] + q);
      { AllTextAppend(p + [blank], q); }
      AllText(p + [blank]) + AllText(q);
      { AllTextAppend(p, [blank]); SinglePage(blank); }
      AllText(p) + AllText(q);
      { AllTextAppend(p, q); }
      AllText(p + q);
    }
  }

  /** The resume text is empty exactly when no page yields text. */
  lemma {:induction false} AllTextEmpty(pages: seq<Option<string>>)
    ensures AllText(pages) == "" <==> forall i :: 0 <= i < |pages| ==> !HasText(pages[i])
  {
    if pages != [] {
      var init := pages[..|pages| - 1];
      AllTextEmpty(init);
      assert forall i :: 0 <= i < |init| ==> init[i] == pages[i];
    }
  }

  /** A non-empty resume text always ends with a newline. */
  lemma {:induction false} AllTextEndsWithNewline(pages: seq<Option<string>>)
    ensures var r := AllText(pages); r != "" ==> r[|r| - 1] == '\n'
  {
    if pages != [] && !HasText(pages[|pages| - 1]) {
      AllTextEndsWithNewline(pages[..|pages| - 1]);
    }
  }

  /** Each page with text adds its length plus one for the newline. */
  function TextWeight(pages: seq<Option<string>>): nat {
    if pages == [] then 0
    else TextWeight(pages[..|pages| - 1]) + (if HasText(pages[|pages| - 1]) then |pages[|pages| - 1].value| + 1 else 0)
  }

  lemma {:induction false} AllTextLength(pages: seq<Option<string>>)
    ensures |AllText(pages)| == TextWeight(pages)
  {
    if pages != [] {
      AllTextLength(pages[..|pages| - 1]);
    }
  }

  // ---------- analyze ----------

  /** The fixed system instruction. Its `{all_text}` and `{job_desc}`
      placeholders and its doubled braces are sent exactly as written: the
      template is never formatted. */
  const PromptHead: string := "\nYou are a resume-job match analyzer.\n\nGiven:\nResume:\n"
  const ResumeSlot: string := "{all_text}"
  const PromptMiddle: string := "\n\nJob Description:\n"
  const JobSlot: string := "{job_desc}"
  const PromptTail: string :=
    "\n\nReturn ONLY a valid JSON object in this exact format (no extra text, no explanations):\n\n"
    + "{{\n"
    + "  \"match_percentage\": \"85%\",\n"
    + "  \"missing_skills\": [\"skill1\", \"skill2\"],\n"
    + "  \"suggested_projects\": [\"project1\", \"project2\", \"project3\"]\n"
    + "}}\n\n"
  const SystemPrompt: string := PromptHead + ResumeSlot + PromptMiddle + JobSlot + PromptTail

  const ModelName: string := "mistral:latest"
  const Temperature: real := 0.3
  const ErrorMarker: string := "\U{274C} Ollama Error: "

  const ResumeLabel: string := "Resume:\n"
  const JobLabel: string := "\n\nJob Description:\n"

  datatype Turn = Turn(role: string, content: string)

  /** What `ollama.chat` is called with. */
  datatype ChatRequest = ChatRequest(model: string, temperature: real, messages: seq<Turn>)

  /** The assistant message of a reply; `content` is `None` when the key is absent. */
  datatype Message = Message(content: Option<string>)

  /** How the chat call ends: a reply (whose `message` key may be absent) or
      a raised exception, given by its text `str(e)`. */
  datatype ChatOutcome = Replied(message: Option<Message>) | Raised(error: string)

  /** The user turn: the resume text and the job description, each under its
      label, verbatim and in that order. */
  function UserContent(allText: string, jobDesc: string): (u: string)
    ensures |u| == |ResumeLabel| + |allText| + |JobLabel| + |jobDesc|
    ensures u[..|ResumeLabel|] == ResumeLabel
    ensures u[|ResumeLabel|..|ResumeLabel| + |allText|] == allText
    ensures u[|ResumeLabel| + |allText|..|u| - |jobDesc|] == JobLabel
    ensures u[|u| - |jobDesc|..] == jobDesc
  {
    ResumeLabel + allText + JobLabel + jobDesc
  }

  /** The request `analyze` sends: fixed model and temperature, the system
      turn first and the user turn second. */
  function Request(allText: string, jobDesc: string): (req: ChatRequest)
    ensures req.model == ModelName && req.temperature == Temperature
    ensures |req.messages| == 2
    ensures req.messages[0] == Turn("system", SystemPrompt)
    ensures req.messages[1] == Turn("user", UserContent(allText, jobDesc))
  {
    ChatRequest(ModelName, Temperature, [Turn("system", SystemPrompt), Turn("user", UserContent(allText, jobDesc))])
  }

  /** `response.get('message', {}).get('content', '')` */
  function ReplyContent(message: Option<Message>): (c: string)
    ensures message.None? || message.value.content.None? ==> c == ""
    ensures message.Some? && message.value.content.Some? ==> c == message.value.content.value
  {
    match message
    case None => ""
    case Some(m) => m.content.GetOr("")
  }

  /** `analyze`: the reply's content stripped of surrounding whitespace, or,
      when the call raises, the error marker followed by the error's text.
      It never raises itself. */
  function Analyze(allText: string, jobDesc: string, chat: ChatRequest -> ChatOutcome): (r: string)
    ensures chat(Request(allText, jobDesc)).Raised? ==>
      && |r| == |ErrorMarker| + |chat(Request(allText, jobDesc)).error|
      && r[..|ErrorMarker|] == ErrorMarker
      && r[|ErrorMarker|..] == chat(Request(allText, jobDesc)).error
    ensures chat(Request(allText, jobDesc)).Replied? ==>
      r == Strip(ReplyContent(chat(Request(allText, jobDesc)).message))
  {
    match chat(Request(allText, jobDesc))
    case Raised(e) => ErrorMarker + e
    case Replied(m) => Strip(ReplyContent(m))
  }

  /** The placeholders of the system turn stay literal: the turn sent holds
      `{all_text}` and `{job_desc}` themselves, whatever the resume and job
      description are. */
  lemma {:induction false} SystemTurnUnformatted(allText: string, jobDesc: string)
    ensures var s := Request(allText, jobDesc).messages[0].content;
      && s[|PromptHead|..|PromptHead| + 10] == "{all_text}"
      && s[|PromptHead| + 10 + |PromptMiddle|..|PromptHead| + 20 + |PromptMiddle|] == "{job_desc}"
  {
    var s := SystemPrompt;
    assert s[|PromptHead|..|PromptHead| + 10] == ResumeSlot;
    assert s[|PromptHead| + 10 + |PromptMiddle|..|PromptHead| + 20 + |PromptMiddle|] == JobSlot;
  }

  /** The marker does not tell a failed call from a reply that happens to
      start with it: a model answering with the marker and an error text is
      reported exactly like the call raising that error. */
  lemma {:induction false} MarkerIsAmbiguous(allText: string, jobDesc: string, e: string,
                          failing: ChatRequest -> ChatOutcome, mimicking: ChatRequest -> ChatOutcome)
    requires e != "" && Trimmed(e)
    requires failing(Request(allText, jobDesc)) == Raised(e)
    requires mimicking(Request(allText, jobDesc)) == Replied(Some(Message(Some(ErrorMarker + e))))
    ensures Analyze(allText, jobDesc, failing) == Analyze(allText, jobDesc, mimicking)
  {
    assert (ErrorMarker + e)[0] == '\U{274C}';
    assert (ErrorMarker + e)[|ErrorMarker + e| - 1] == e[|e| - 1];
    StripTrimmed(ErrorMarker + e);
  }

  /** A text that starts with the marker came from a raised call, or from a
      reply whose stripped content starts with the marker. */
  lemma {:induction false} MarkerMeansRaisedOrMimic(allText: string, jobDesc: string, chat: ChatRequest -> ChatOutcome)
    requires var r := Analyze(allText, jobDesc, chat); |r| >= |ErrorMarker| && r[..|ErrorMarker|] == ErrorMarker
    ensures || chat(Request(allText, jobDesc)).Raised?
            || var s := Strip(ReplyContent(chat(Request(allText, jobDesc)).message));
               |s| >= |ErrorMarker| && s[..|ErrorMarker|] == ErrorMarker
  {
  }
}
