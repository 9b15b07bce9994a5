/**
 * step3.py: the two-node answer workflow (retrieve, then generate), the
 * console view of retrieved documents, and the interactive question loop.
 * The retriever and the language model are parameters; `None` stands for a
 * call that raises.
 */
module Qa {
  import opened Wrappers
  import opened Strings

  /** A retrieved document: its text and its metadata. */
  datatype Document = Document(pageContent: string, metadata: map<string, string>)

  /** The workflow state. */
  datatype RAGState = RAGState(question: string, documents: seq<Document>, answer: string)

  /** The retriever: the documents for a question, or `None` when the call raises. */
  type Retriever = string -> Option<seq<Document>>

  /** The language model chain: the answer to a prompt, or `None` when the call raises. */
  type Llm = string -> Option<string>

  // ---------------------------------------------------------------------
  // The two nodes
  // ---------------------------------------------------------------------

  /** `retrieve_documents`: same question, the retriever's documents, an empty answer. */
  function Retrieve(retriever: Retriever, state: RAGState): (r: Option<RAGState>)
    ensures r.Some? <==> retriever(state.question).Some?
    ensures r.Some? ==> r.value.question == state.question && r.value.documents == retriever(state.question).value && r.value.answer == ""
  {
    var documents := retriever(state.question);
    if documents.Some? then Some(RAGState(state.question, documents.value, "")) else None
  }

  /** The page contents of the documents, in retrieval order. */
  function PageContents(documents: seq<Document>): (r: seq<string>)
    ensures |r| == |documents|
    ensures forall i :: 0 <= i < |documents| ==> r[i] == documents[i].pageContent
  {
    seq(|documents|, i requires 0 <= i < |documents| => documents[i].pageContent)
  }

  /** The context handed to the model: the page contents joined by blank lines. */
  function Context(documents: seq<Document>): string
  {
    Join("\n\n", PageContents(documents))
  }

  /**
   * The context is empty without documents and is the page content of a
   * single document. With more, it is the first document's page content, a
   * blank line, and the context of the others, so every page content appears
   * in retrieval order with one blank line between neighbours, and nothing
   * else is added.
   */
  lemma ContextSpec(documents: seq<Document>)
    ensures documents == [] ==> Context(documents) == ""
    ensures |documents| == 1 ==> Context(documents) == documents[0].pageContent
    ensures |documents| > 1 ==> Context(documents) == documents[0].pageContent + "\n\n" + Context(documents[1..])
    ensures documents != [] ==> |Context(documents)| == |Concat(PageContents(documents))| + 2 * (|documents| - 1)
  {
    if documents != [] {
      JoinLength("\n\n", PageContents(documents));
    }
    if |documents| > 1 {
      JoinFront("\n\n", PageContents(documents));
      assert PageContents(documents)[1..] == PageContents(documents[1..]);
    }
  }

  /** The prompt of `rag_prompt` with the context and the question filled in. */
  function Prompt(context: string, question: string): string
  {
    "\n다음 문서들을 참고하여 질문에 답변해주세요.\n\n문서들:\n" + context + "\n\n질문: " + question
      + "\n\n답변은 한국어로 작성하고, 문서의 내용을 바탕으로 정확하고 자세하게 답변해주세요.\n답변:\n"
  }

  /** `generate_answer`: same question and documents, and the model's answer to the prompt. */
  function Generate(llm: Llm, state: RAGState): (r: Option<RAGState>)
    ensures r.Some? <==> llm(Prompt(Context(state.documents), state.question)).Some?
    ensures r.Some? ==>
      && r.value.question == state.question && r.value.documents == state.documents
      && r.value.answer == llm(Prompt(Context(state.documents), state.question)).value
  {
    var answer := llm(Prompt(Context(state.documents), state.question));
    if answer.Some? then Some(RAGState(state.question, state.documents, answer.value)) else None
  }

  // ---------------------------------------------------------------------
  // The graph
  // ---------------------------------------------------------------------

  datatype Node = RetrieveNode | GenerateNode | EndNode

  /** The entry point of the graph. */
  const Entry: Node := RetrieveNode

  /** The edges: `retrieve` to `generate`, `generate` to `END`. */
  function Successor(n: Node): Node
  {
    match n
    case RetrieveNode => GenerateNode
    case GenerateNode => EndNode
    case EndNode => EndNode
  }

  /** How many nodes are left to run from `n`. */
  function Distance(n: Node): nat
  {
    match n
    case RetrieveNode => 2
    case GenerateNode => 1
    case EndNode => 0
  }

  /** The final state, or `None` when a node raised, and the nodes that ran, in order. */
  datatype Run = Run(result: Option<RAGState>, trace: seq<Node>)

  function RunNode(retriever: Retriever, llm: Llm, n: Node, state: RAGState): Option<RAGState>
    requires n != EndNode
  {
    if n == RetrieveNode then Retrieve(retriever, state) else Generate(llm, state)
  }

  /** Running the compiled graph from node `n`: each node's output is the next node's input. */
  function RunGraph(retriever: Retriever, llm: Llm, n: Node, state: RAGState): Run
    decreases Distance(n)
  {
    if n == EndNode then Run(Some(state), [])
    else
      var out := RunNode(retriever, llm, n, state);
      if out.None? then Run(None, [n])
      else
        var rest := RunGraph(retriever, llm, Successor(n), out.value);
        Run(rest.result, [n] + rest.trace)
  }

  /** `rag_app.invoke`: the graph run from its entry. */
  function Invoke(retriever: Retriever, llm: Llm, state: RAGState): Option<RAGState>
  {
    RunGraph(retriever, llm, Entry, state).result
  }

  /**
   * The graph runs `retrieve` once and then `generate` once: when both
   * succeed the answer is the model's answer for the retrieved documents'
   * context, with the question and the documents passed through; when the
   * retriever raises, `generate` never runs.
   */
  lemma WorkflowSpec(retriever: Retriever, llm: Llm, state: RAGState)
    ensures var run := RunGraph(retriever, llm, Entry, state);
      var docs := retriever(state.question);
      && (docs.None? ==> run == Run(None, [RetrieveNode]))
      && (docs.Some? ==> run.trace == [RetrieveNode, GenerateNode])
      && (docs.Some? ==> run.result == Generate(llm, RAGState(state.question, docs.value, "")))
  {
    var docs := retriever(state.question);
    if docs.Some? {
      var mid := RAGState(state.question, docs.value, "");
      assert RunNode(retriever, llm, RetrieveNode, state) == Some(mid);
      var out := Generate(llm, mid);
      if out.Some? {
        assert RunGraph(retriever, llm, GenerateNode, mid) == Run(out, [GenerateNode]);
      } else {
        assert RunGraph(retriever, llm, GenerateNode, mid) == Run(None, [GenerateNode]);
      }
    }
  }

  // ---------------------------------------------------------------------
  // Console view of retrieved documents
  // ---------------------------------------------------------------------

  /** What the console shows of a document. */
  datatype DocumentView = DocumentView(source: string, preview: string)

  const PreviewLength: nat := 300

  /** The source is the metadata's `pdf_name` (or `N/A`); the preview is the first 300 characters plus `...` for a longer text. */
  function View(doc: Document): (v: DocumentView)
    ensures "pdf_name" in doc.metadata ==> v.source == doc.metadata["pdf_name"]
    ensures "pdf_name" !in doc.metadata ==> v.source == "N/A"
    ensures |v.preview| <= PreviewLength + 3
    ensures |doc.pageContent| <= PreviewLength ==> v.preview == doc.pageContent
    ensures |doc.pageContent| > PreviewLength ==>
      && |v.preview| == PreviewLength + 3
      && v.preview[..PreviewLength] == doc.pageContent[..PreviewLength]
      && v.preview[PreviewLength..] == "..."
  {
    var source := if "pdf_name" in doc.metadata then doc.metadata["pdf_name"] else "N/A";
    DocumentView(source, Preview(doc.pageContent, PreviewLength))
  }

  /** The loop of `print_search_results`: one view per document, in order. */
  method SearchResultViews(docs: seq<Document>) returns (views: seq<DocumentView>)
    ensures |views| == |docs|
    ensures forall i :: 0 <= i < |docs| ==> views[i] == View(docs[i])
  {
    views := [];
    for i := 0 to |docs|
      invariant |views| == i
      invariant forall j :: 0 <= j < i ==> views[j] == View(docs[j])
    {
      var doc := docs[i];
      var source := if "pdf_name" in doc.metadata then doc.metadata["pdf_name"] else "N/A";
      var content := if |doc.pageContent| > PreviewLength then doc.pageContent[..PreviewLength] + "..." else doc.pageContent;
      views := views + [DocumentView(source, content)];
    }
  }

  // ---------------------------------------------------------------------
  // The question loop
  // ---------------------------------------------------------------------

  /** What one `input()` call yields: a line, or a Ctrl-C. The end of the list is the end of input. */
  datatype Event = Line(text: string) | Interrupt

  /** What the loop reports: an answer with its document count, an error while answering, or an error while reading. */
  datatype Outcome = Answered(question: string, answer: string, documentCount: nat) | Failed(question: string) | InputFailed

  /** The workflow as the loop sees it: the final state, or `None` when it raises. */
  type App = RAGState -> Option<RAGState>

  /** The words that end the loop, after stripping and lower-casing. */
  predicate IsExit(question: string) {
    Lower(question) in {"quit", "exit", "종료"}
  }

  /** The state the loop starts the workflow with. */
  function Initial(question: string): (s: RAGState)
    ensures s.question == question && s.documents == [] && s.answer == ""
  {
    RAGState(question, [], "")
  }

  /** What asking `question` reports. */
  function OutcomeOf(app: App, question: string): (o: Outcome)
    ensures app(Initial(question)).Some? ==>
      o == Answered(question, app(Initial(question)).value.answer, |app(Initial(question)).value.documents|)
    ensures app(Initial(question)).None? ==> o == Failed(question)
  {
    var result := app(Initial(question));
    if result.Some? then Answered(question, result.value.answer, |result.value.documents|) else Failed(question)
  }

  /** What the loop does with an event: end, skip it, or ask a question. */
  datatype Kind = Stop | Skip | Ask(question: string)

  /** How the loop treats an event. */
  function Classify(e: Event): Kind
  {
    if e.Interrupt? then Stop
    else
      var question := Strip(e.text);
      if IsExit(question) then Stop else if question == "" then Skip else Ask(question)
  }

  /**
   * A Ctrl-C or a line that strips to an exit word ends the loop, a line
   * that strips to nothing is skipped, and any other line is asked,
   * stripped: never blank, never padded, never an exit word.
   */
  lemma ClassifySpec(e: Event)
    ensures e.Interrupt? ==> Classify(e) == Stop
    ensures e.Line? ==> (Classify(e) == Stop <==> IsExit(Strip(e.text)))
    ensures e.Line? && !IsExit(Strip(e.text)) ==> (Classify(e) == Skip <==> Strip(e.text) == "")
    ensures Classify(e).Ask? ==>
      && e.Line? && Classify(e).question == Strip(e.text)
      && Classify(e).question != "" && IsStripped(Classify(e).question) && !IsExit(Classify(e).question)
  {
  }

  /** Each event's kind, in input order. */
  function Kinds(events: seq<Event>): (kinds: seq<Kind>)
    ensures |kinds| == |events|
    ensures forall i :: 0 <= i < |events| ==> kinds[i] == Classify(events[i])
  {
    seq(|events|, i requires 0 <= i < |events| => Classify(events[i]))
  }

  /**
   * What the loop reports for a run of kinds: nothing from the first stop
   * on, nothing for a skip, and the outcome of each question asked.
   */
  function Outcomes(app: App, kinds: seq<Kind>): seq<Outcome>
  {
    if kinds == [] then []
    else
      match kinds[0]
      case Stop => []
      case Skip => Outcomes(app, kinds[1..])
      case Ask(question) => [OutcomeOf(app, question)] + Outcomes(app, kinds[1..])
  }

  /** The questions asked for a run of kinds: those before the first stop. */
  function Asked(kinds: seq<Kind>): seq<string>
  {
    if kinds == [] then []
    else
      match kinds[0]
      case Stop => []
      case Skip => Asked(kinds[1..])
      case Ask(question) => [question] + Asked(kinds[1..])
  }

  /**
   * The session a line list gives, with the end of input ending it: lines
   * are read up to the first stop; blank lines are skipped, and every other
   * line is asked, whatever happened to the lines before it.
   */
  function Session(app: App, events: seq<Event>): seq<Outcome>
  {
    Outcomes(app, Kinds(events))
  }

  /** The questions the session asks. */
  function Questions(events: seq<Event>): seq<string>
  {
    Asked(Kinds(events))
  }

  lemma {:induction false} OutcomesPerQuestion(app: App, kinds: seq<Kind>)
    ensures |Outcomes(app, kinds)| == |Asked(kinds)|
    ensures forall k :: 0 <= k < |Asked(kinds)| ==> Outcomes(app, kinds)[k] == OutcomeOf(app, Asked(kinds)[k])
  {
    if kinds != [] && !kinds[0].Stop? {
      OutcomesPerQuestion(app, kinds[1..]);
    }
  }

  /**
   * The session asks each question exactly once and in order, and what it
   * reports for a question depends on that question alone: a failure for
   * one question does not stop the others.
   */
  lemma SessionPerQuestion(app: App, events: seq<Event>)
    ensures |Session(app, events)| == |Questions(events)|
    ensures forall k :: 0 <= k < |Questions(events)| ==> Session(app, events)[k] == OutcomeOf(app, Questions(events)[k])
  {
    OutcomesPerQuestion(app, Kinds(events));
  }

  /** What the loop may ask: a stripped line that is not empty and not an exit word. */
  predicate Askable(question: string) {
    question != "" && IsStripped(question) && !IsExit(question)
  }

  lemma {:induction false} AskedAskable(kinds: seq<Kind>)
    requires forall i :: 0 <= i < |kinds| && kinds[i].Ask? ==> Askable(kinds[i].question)
    ensures forall k :: 0 <= k < |Asked(kinds)| ==> Askable(Asked(kinds)[k])
  {
    if kinds != [] && !kinds[0].Stop? {
      assert forall i :: 0 <= i < |kinds[1..]| ==> kinds[1..][i] == kinds[i + 1];
      AskedAskable(kinds[1..]);
    }
  }

  /** Every question asked is a stripped line that is not empty and not an exit word. */
  lemma QuestionsShape(events: seq<Event>)
    ensures forall k :: 0 <= k < |Questions(events)| ==> Askable(Questions(events)[k])
  {
    var kinds := Kinds(events);
    forall i | 0 <= i < |kinds| && kinds[i].Ask?
      ensures Askable(kinds[i].question)
    {
      ClassifySpec(events[i]);
    }
    AskedAskable(kinds);
  }

  lemma {:induction false} OutcomesStop(app: App, kinds: seq<Kind>, k: nat)
    requires k < |kinds| && kinds[k] == Stop
    requires forall j :: 0 <= j < k ==> kinds[j] != Stop
    ensures Outcomes(app, kinds) == Outcomes(app, kinds[..k])
  {
    if k > 0 {
      assert kinds[1..][..k - 1] == kinds[..k][1..];
      OutcomesStop(app, kinds[1..], k - 1);
    }
  }

  /** Nothing after the first stop is read: the session is that of the events before it. */
  lemma SessionStops(app: App, events: seq<Event>, k: nat)
    requires k < |events| && Classify(events[k]) == Stop
    requires forall j :: 0 <= j < k ==> Classify(events[j]) != Stop
    ensures Session(app, events) == Session(app, events[..k])
  {
    OutcomesStop(app, Kinds(events), k);
    assert Kinds(events[..k]) == Kinds(events)[..k];
  }

  /** The outcomes from kind `i` on, by what kind `i` is. */
  lemma OutcomesStep(app: App, kinds: seq<Kind>, i: nat)
    requires i < |kinds|
    ensures kinds[i] == Stop ==> Outcomes(app, kinds[i..]) == []
    ensures kinds[i] == Skip ==> Outcomes(app, kinds[i..]) == Outcomes(app, kinds[i + 1..])
    ensures kinds[i].Ask? ==> Outcomes(app, kinds[i..]) == [OutcomeOf(app, kinds[i].question)] + Outcomes(app, kinds[i + 1..])
  {
    assert kinds[i..][0] == kinds[i] && kinds[i..][1..] == kinds[i + 1..];
  }

  /**
   * `interactive_qa` with the end of input ending the loop: strip each line,
   * stop at an exit word or a Ctrl-C, skip blank lines, and ask the workflow
   * every other line, reporting its answer or its failure.
   */
  method InteractiveQa(app: App, events: seq<Event>) returns (outcomes: seq<Outcome>)
    ensures outcomes == Session(app, events)
  {
    ghost var kinds := Kinds(events);
    outcomes := [];
    var i := 0;
    while i < |events|
      invariant i <= |events|
      invariant outcomes + Outcomes(app, kinds[i..]) == Session(app, events)
    {
      OutcomesStep(app, kinds, i);
      var kind := ReadEvent(events[i]);
      if kind.Stop? {
        break;
      }
      if kind.Ask? {
        var outcome := AskQuestion(app, kind.question);
        outcomes := outcomes + [outcome];
      }
      i := i + 1;
    }
    assert i == |events| ==> kinds[i..] == [];
  }

  /** The tests the loop makes on what `input()` returned: Ctrl-C, then the stripped line against the exit words, then blank. */
  method ReadEvent(event: Event) returns (kind: Kind)
    ensures kind == Classify(event)
  {
    if event.Interrupt? {
      return Stop;
    }
    var question := Strip(event.text);
    if IsExit(question) {
      return Stop;
    }
    if question == "" {
      return Skip;
    }
    return Ask(question);
  }

  /** One workflow call of the loop: its answer and document count, or its failure. */
  method AskQuestion(app: App, question: string) returns (outcome: Outcome)
    ensures outcome == OutcomeOf(app, question)
  {
    var initialState := RAGState(question, [], "");
    var result := app(initialState);
    if result.Some? {
      outcome := Answered(question, result.value.answer, |result.value.documents|);
    } else {
      outcome := Failed(question);
    }
  }

  // ---------------------------------------------------------------------
  // End of input, as written
  // ---------------------------------------------------------------------

  /** The loop between two `input()` calls: the next event to read, what was reported, and whether it ended. */
  datatype LoopState = LoopState(pos: nat, outcomes: seq<Outcome>, stopped: bool)

  /**
   * One pass of `while True` as written, over the kinds of the events: at
   * the end of input `input()` raises `EOFError`, which the
   * `except Exception` branch reports, and the loop asks again.
   */
  function AsWrittenStep(app: App, kinds: seq<Kind>, st: LoopState): LoopState
  {
    if st.stopped then st
    else if st.pos >= |kinds| then LoopState(st.pos, st.outcomes + [InputFailed], false)
    else
      match kinds[st.pos]
      case Stop => LoopState(st.pos + 1, st.outcomes, true)
      case Skip => LoopState(st.pos + 1, st.outcomes, false)
      case Ask(question) => LoopState(st.pos + 1, st.outcomes + [OutcomeOf(app, question)], false)
  }

  /** One pass with the end of input ending the loop, as `except EOFError: break` would. */
  function CorrectedStep(app: App, kinds: seq<Kind>, st: LoopState): LoopState
  {
    if !st.stopped && st.pos >= |kinds| then LoopState(st.pos, st.outcomes, true)
    else AsWrittenStep(app, kinds, st)
  }

  function AsWrittenRun(app: App, kinds: seq<Kind>, st: LoopState, n: nat): LoopState
    decreases n
  {
    if n == 0 then st else AsWrittenRun(app, kinds, AsWrittenStep(app, kinds, st), n - 1)
  }

  function CorrectedRun(app: App, kinds: seq<Kind>, st: LoopState, n: nat): LoopState
    decreases n
  {
    if n == 0 then st else CorrectedRun(app, kinds, CorrectedStep(app, kinds, st), n - 1)
  }

  /** At the end of input the loop as written never ends: every pass reports another read error. */
  lemma {:induction false} AsWrittenSpinsAtEnd(app: App, kinds: seq<Kind>, outcomes: seq<Outcome>, n: nat)
    decreases n
    ensures var st := AsWrittenRun(app, kinds, LoopState(|kinds|, outcomes, false), n);
      !st.stopped && st.pos == |kinds| && st.outcomes == outcomes + seq(n, _ => InputFailed)
  {
    if n > 0 {
      AsWrittenSpinsAtEnd(app, kinds, outcomes + [InputFailed], n - 1);
      assert outcomes + [InputFailed] + seq(n - 1, _ => InputFailed) == outcomes + seq(n, _ => InputFailed);
    }
  }

  /** With no input at all, the loop as written never ends and reports a read error on every pass. */
  lemma AsWrittenNeverEndsOnEmptyInput(app: App, n: nat)
    ensures var st := AsWrittenRun(app, Kinds([]), LoopState(0, [], false), n);
      !st.stopped && |st.outcomes| == n
  {
    AsWrittenSpinsAtEnd(app, [], [], n);
  }

  /** Once ended, the loop stays ended and reports nothing more. */
  lemma {:induction false} CorrectedStopped(app: App, kinds: seq<Kind>, st: LoopState, n: nat)
    requires st.stopped
    decreases n
    ensures CorrectedRun(app, kinds, st, n) == st
  {
    if n > 0 {
      CorrectedStopped(app, kinds, st, n - 1);
    }
  }

  /**
   * The corrected loop ends within one pass more than there are events left,
   * having reported exactly the outcomes of the kinds left.
   */
  lemma {:induction false} CorrectedRunIsOutcomes(app: App, kinds: seq<Kind>, pos: nat, outcomes: seq<Outcome>, n: nat)
    requires pos <= |kinds| && n > |kinds| - pos
    decreases n
    ensures var st := CorrectedRun(app, kinds, LoopState(pos, outcomes, false), n);
      st.stopped && st.outcomes == outcomes + Outcomes(app, kinds[pos..])
  {
    var st := LoopState(pos, outcomes, false);
    if pos == |kinds| {
      assert kinds[pos..] == [];
      CorrectedStopped(app, kinds, LoopState(pos, outcomes, true), n - 1);
    } else {
      OutcomesStep(app, kinds, pos);
      match kinds[pos] {
        case Stop =>
          CorrectedStopped(app, kinds, LoopState(pos + 1, outcomes, true), n - 1);
        case Skip =>
          CorrectedRunIsOutcomes(app, kinds, pos + 1, outcomes, n - 1);
        case Ask(question) =>
          var o := OutcomeOf(app, question);
          CorrectedRunIsOutcomes(app, kinds, pos + 1, outcomes + [o], n - 1);
          assert outcomes + [o] + Outcomes(app, kinds[pos + 1..]) == outcomes + Outcomes(app, kinds[pos..]);
      }
    }
  }

  /** Run on a line list, the corrected loop ends within one pass more than there are lines, with exactly the session. */
  lemma CorrectedRunIsSession(app: App, events: seq<Event>)
    ensures var st := CorrectedRun(app, Kinds(events), LoopState(0, [], false), |events| + 1);
      st.stopped && st.outcomes == Session(app, events)
  {
    var kinds := Kinds(events);
    CorrectedRunIsOutcomes(app, kinds, 0, [], |kinds| + 1);
    FromStart(kinds);
    FromStart(Outcomes(app, kinds));
  }
}
