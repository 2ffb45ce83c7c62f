/** The request logic of the web service (backend/main.py): the retry policy
    around every call to the generative model, the in-memory document table
    that upload fills and chat and quiz read, upload validation, the choice of
    the quiz's source text and the clean-up of generated headings. The model
    itself, the PDF and Word extractors and the id generator are oracles
    passed in as parameters. */
module Backend {
  import opened Text

  /** `max_retries`. */
  const MaxRetries: nat := 3

  const NotConfigured: string := "Gemini API Key not configured."
  const BadExtension: string := "File must be a PDF or Word (.docx) document"
  const NoText: string := "Could not extract text. It might be scanned or empty."
  const UnknownDocument: string := "Document context not found. Please re-upload."
  const NoQuizSource: string := "Either doc_id or text must be provided"
  const Apology: string := "I'm sorry, I encountered an error while processing your question via AI."
  /** `str(e)` of the `HTTPException(500, "Gemini client not initialized")` the quiz endpoint raises inside its `try`. */
  const QuizNotConfigured: string := "500: Gemini client not initialized"

  /** What one call to the model does: answer with a text or raise an exception, given by `str(e)`. */
  datatype AiOutcome = Reply(text: string) | Raised(message: string)

  /** An `HTTPException`: status code and detail. */
  datatype HttpError = HttpError(status: int, detail: string)

  // ---------------------------------------------------------------------------
  // The retry policy shared by the four endpoints that call the model.
  // ---------------------------------------------------------------------------

  /** `2 ** attempt`. */
  function Pow2(n: nat): nat {
    if n == 0 then 1 else 2 * Pow2(n - 1)
  }

  /** The handler's test: the error mentions "429" and attempts remain. */
  predicate Retries(message: string, attempt: nat) {
    Contains(message, "429") && attempt < MaxRetries - 1
  }

  /** How a retry loop entered at `attempt` ends: the reply or the message of
      the error it gives up on, and the number of attempts made in all. */
  datatype Ending = Ending(result: Either<string, string>, attempts: nat)

  /** The outcome of the `for attempt in range(max_retries)` loop, from `attempt` on;
      `ai(i)` is what the model does on attempt i. */
  function Retry(ai: nat -> AiOutcome, attempt: nat): Ending
    requires attempt < MaxRetries
    decreases MaxRetries - attempt
  {
    match ai(attempt)
    case Reply(text) => Ending(Ok(text), attempt + 1)
    case Raised(message) =>
      if Retries(message, attempt) then Retry(ai, attempt + 1) else Ending(Err(message), attempt + 1)
  }

  /** The policy: at most three attempts; every attempt but the last raised an
      error mentioning "429"; the last one either answered, which is the
      result, or raised an error that is not retried (it lacks "429" or no
      attempt is left), which is re-raised unchanged. */
  lemma {:induction false} RetryPolicy(ai: nat -> AiOutcome, attempt: nat)
    requires attempt < MaxRetries
    ensures var e := Retry(ai, attempt);
      && attempt < e.attempts <= MaxRetries
      && (forall i :: attempt <= i < e.attempts - 1 ==> ai(i).Raised? && Contains(ai(i).message, "429"))
      && (ai(e.attempts - 1).Reply? ==> e.result == Ok(ai(e.attempts - 1).text))
      && (ai(e.attempts - 1).Raised? ==>
            e.result == Err(ai(e.attempts - 1).message)
            && (e.attempts == MaxRetries || !Contains(ai(e.attempts - 1).message, "429")))
    decreases MaxRetries - attempt
  {
    match ai(attempt)
    case Reply(_) =>
    case Raised(message) =>
      if Retries(message, attempt) {
        RetryPolicy(ai, attempt + 1);
      }
  }

  /** An error without "429" on the first attempt is raised at once. */
  lemma NoRetryWithout429(ai: nat -> AiOutcome)
    requires ai(0).Raised? && !Contains(ai(0).message, "429")
    ensures Retry(ai, 0) == Ending(Err(ai(0).message), 1)
  {
  }

  /** The retry loop itself, with the seconds it sleeps before each new attempt. */
  method CallWithRetry(ai: nat -> AiOutcome) returns (result: Either<string, string>, attempts: nat, waits: seq<nat>)
    ensures Ending(result, attempts) == Retry(ai, 0)
    ensures 1 <= attempts <= MaxRetries && waits == [1, 2][..attempts - 1]
  {
    waits := [];
    for attempt := 0 to MaxRetries
      invariant attempt < MaxRetries
      invariant waits == [1, 2][..attempt]
      invariant Retry(ai, attempt) == Retry(ai, 0)
    {
      match ai(attempt)
      case Reply(text) =>
        return Ok(text), attempt + 1, waits;
      case Raised(message) =>
        if Retries(message, attempt) {
          waits := waits + [Pow2(attempt)];
        } else {
          return Err(message), attempt + 1, waits;
        }
    }
    assert false;
  }

  // ---------------------------------------------------------------------------
  // Heading clean-up: re.sub(r'^\s+(#+)', r'\1', text, flags=re.MULTILINE).
  // ---------------------------------------------------------------------------

  /** `^` under `re.MULTILINE`: the start of the text or just after a `\n`. */
  predicate AtLineStart(s: string, i: nat) {
    i == 0 || (0 < i <= |s| && s[i - 1] == '\n')
  }

  predicate IsHash(c: char) {
    c == '#'
  }

  /** A match of `\s+` followed by `#` at index i: where the `#` stands. There
      is one exactly when a `#` is reached from i through one or more
      whitespace characters. */
  function IndentedHeadingAt(s: string, i: nat): (r: Option<nat>)
    requires i <= |s|
    ensures r.Some? ==> i < r.value < |s| && s[r.value] == '#'
    ensures r.Some? ==> forall k :: i <= k < r.value ==> PySpace(s[k])
  {
    var j := RunEnd(s, i, PySpace);
    if i < j && j < |s| && s[j] == '#' then Some(j) else None
  }

  /** There is no match exactly when every `#` after i has a character other
      than whitespace before it. */
  lemma IndentedHeadingAtNone(s: string, i: nat)
    requires i <= |s| && IndentedHeadingAt(s, i).None?
    ensures forall j :: i < j < |s| && s[j] == '#' ==> exists k :: i <= k < j && !PySpace(s[k])
  {
    var j := RunEnd(s, i, PySpace);
    forall j' | i < j' < |s| && s[j'] == '#' ensures exists k :: i <= k < j' && !PySpace(s[k]) {
      assert !PySpace(s[j']);
      assert j < j' && !PySpace(s[j]);
    }
  }

  /** The substitution applied to the text from index i on: at each line start,
      whitespace before a run of `#` is dropped and the run kept. */
  function UnindentFrom(s: string, i: nat): (r: string)
    requires i <= |s|
    ensures |r| <= |s| - i
    decreases |s| - i
  {
    if i == |s| then []
    else if AtLineStart(s, i) && IndentedHeadingAt(s, i).Some? then
      var j := IndentedHeadingAt(s, i).value;
      var k := RunEnd(s, j, IsHash);
      s[j..k] + UnindentFrom(s, k)
    else [s[i]] + UnindentFrom(s, i + 1)
  }

  /** `re.sub(r'^\s+(#+)', r'\1', text, flags=re.MULTILINE)`: never longer, and only whitespace is removed. */
  function UnindentHeadings(s: string): (r: string)
    ensures |r| <= |s|
    ensures NonSpace(r) == NonSpace(s)
  {
    UnindentKeepsText(s, 0);
    assert s[0..] == s;
    UnindentFrom(s, 0)
  }

  /** The characters that are not Python whitespace, in order. */
  function NonSpace(s: string): (r: string)
    ensures |r| <= |s|
  {
    if s == [] then [] else (if PySpace(s[0]) then [] else [s[0]]) + NonSpace(s[1..])
  }

  lemma {:induction false} NonSpaceAppend(a: string, b: string)
    ensures NonSpace(a + b) == NonSpace(a) + NonSpace(b)
  {
    if a == [] {
      assert a + b == b;
    } else {
      var head := if PySpace(a[0]) then [] else [a[0]];
      assert (a + b)[0] == a[0];
      assert (a + b)[1..] == a[1..] + b;
      assert NonSpace(a + b) == head + NonSpace(a[1..] + b);
      assert NonSpace(a) == head + NonSpace(a[1..]);
      NonSpaceAppend(a[1..], b);
    }
  }

  lemma {:induction false} NonSpaceOfBlank(s: string)
    requires forall k :: 0 <= k < |s| ==> PySpace(s[k])
    ensures NonSpace(s) == []
  {
    if s != [] {
      NonSpaceOfBlank(s[1..]);
    }
  }

  lemma {:induction false} NonSpaceOfSolid(s: string)
    requires forall k :: 0 <= k < |s| ==> !PySpace(s[k])
    ensures NonSpace(s) == s
  {
    if s != [] {
      NonSpaceOfSolid(s[1..]);
    }
  }

  /** Indentation dropped before a kept run: the non-space text is the run and what follows. */
  lemma NonSpaceSkip(a: string, b: string, c: string)
    requires forall k :: 0 <= k < |a| ==> PySpace(a[k])
    requires forall k :: 0 <= k < |b| ==> !PySpace(b[k])
    ensures NonSpace(a + (b + c)) == b + NonSpace(c)
  {
    NonSpaceAppend(a, b + c);
    NonSpaceAppend(b, c);
    NonSpaceOfBlank(a);
    NonSpaceOfSolid(b);
  }

  /** The clean-up removes whitespace only: every other character is kept, in order. */
  lemma {:induction false} UnindentKeepsText(s: string, i: nat)
    requires i <= |s|
    ensures NonSpace(UnindentFrom(s, i)) == NonSpace(s[i..])
    decreases |s| - i
  {
    if i == |s| {
    } else if AtLineStart(s, i) && IndentedHeadingAt(s, i).Some? {
      var j := IndentedHeadingAt(s, i).value;
      var k := RunEnd(s, j, IsHash);
      UnindentKeepsText(s, k);
      assert UnindentFrom(s, i) == s[j..k] + UnindentFrom(s, k);
      HeadingStepKeepsText(s, i, j, k);
    } else {
      UnindentKeepsText(s, i + 1);
      PlainStepKeepsText(s, i);
    }
  }

  lemma HeadingStepKeepsText(s: string, i: nat, j: nat, k: nat)
    requires i < j < k <= |s|
    requires forall m :: i <= m < j ==> PySpace(s[m])
    requires forall m :: j <= m < k ==> IsHash(s[m])
    requires UnindentFrom(s, i) == s[j..k] + UnindentFrom(s, k)
    requires NonSpace(UnindentFrom(s, k)) == NonSpace(s[k..])
    ensures NonSpace(UnindentFrom(s, i)) == NonSpace(s[i..])
  {
    SplitRuns(s, i, j, k);
    KeptRun(s[i..j], s[j..k], s[k..], UnindentFrom(s, k));
  }

  /** The text from i as the whitespace run, the `#` run and the rest. */
  lemma SplitRuns(s: string, i: nat, j: nat, k: nat)
    requires i <= j <= k <= |s|
    requires forall m :: i <= m < j ==> PySpace(s[m])
    requires forall m :: j <= m < k ==> IsHash(s[m])
    ensures s[i..] == s[i..j] + (s[j..k] + s[k..])
    ensures forall m :: 0 <= m < j - i ==> PySpace(s[i..j][m])
    ensures forall m :: 0 <= m < k - j ==> IsHash(s[j..k][m])
  {
    assert forall m :: 0 <= m < j - i ==> s[i..j][m] == s[i + m];
    assert forall m :: 0 <= m < k - j ==> s[j..k][m] == s[j + m];
  }

  /** Dropped indentation, a kept run of `#`, and a rest whose non-space text is kept. */
  lemma KeptRun(a: string, b: string, c: string, tail: string)
    requires forall m :: 0 <= m < |a| ==> PySpace(a[m])
    requires forall m :: 0 <= m < |b| ==> IsHash(b[m])
    requires NonSpace(tail) == NonSpace(c)
    ensures NonSpace(b + tail) == NonSpace(a + (b + c))
  {
    assert forall m :: 0 <= m < |b| ==> !PySpace(b[m]);
    NonSpaceAppend(b, tail);
    NonSpaceOfSolid(b);
    NonSpaceSkip(a, b, c);
  }

  lemma PlainStepKeepsText(s: string, i: nat)
    requires i < |s| && !(AtLineStart(s, i) && IndentedHeadingAt(s, i).Some?)
    requires NonSpace(UnindentFrom(s, i + 1)) == NonSpace(s[i + 1..])
    ensures NonSpace(UnindentFrom(s, i)) == NonSpace(s[i..])
  {
    assert UnindentFrom(s, i) == [s[i]] + UnindentFrom(s, i + 1);
    assert s[i..] == [s[i]] + s[i + 1..];
    NonSpaceAppend([s[i]], s[i + 1..]);
    NonSpaceAppend([s[i]], UnindentFrom(s, i + 1));
  }

  /** A `#` is not whitespace, so no match starts on it and it is copied. */
  lemma HashStep(s: string, j: nat)
    requires j < |s| && s[j] == '#'
    ensures UnindentFrom(s, j) == [s[j]] + UnindentFrom(s, j + 1)
  {
    RunEndAt(s, j, j, PySpace);
    UnindentNoMatch(s, j);
  }

  /** A run of `#` that is not preceded by a match is copied as it is. */
  lemma {:induction false} HashesCopied(s: string, j: nat, k: nat)
    requires j <= k <= |s| && forall m :: j <= m < k ==> s[m] == '#'
    ensures UnindentFrom(s, j) == s[j..k] + UnindentFrom(s, k)
    decreases k - j
  {
    if j < k {
      HashStep(s, j);
      HashesCopied(s, j + 1, k);
      var rest := UnindentFrom(s, k);
      assert s[j..k] == [s[j]] + s[j + 1..k];
      assert [s[j]] + (s[j + 1..k] + rest) == ([s[j]] + s[j + 1..k]) + rest;
    } else {
      assert s[j..k] == [];
    }
  }

  /** At a line start, an indented heading loses its indentation: when the
      whitespace from i runs up to a `#` at j, the output from i is the output
      from j. */
  lemma HeadingUnindented(s: string, i: nat, j: nat)
    requires i < j < |s| && AtLineStart(s, i) && s[j] == '#'
    requires forall m :: i <= m < j ==> PySpace(s[m])
    ensures UnindentFrom(s, i) == UnindentFrom(s, j)
  {
    RunEndAt(s, i, j, PySpace);
    assert IndentedHeadingAt(s, i) == Some(j);
    var k := RunEnd(s, j, IsHash);
    assert UnindentFrom(s, i) == s[j..k] + UnindentFrom(s, k);
    HashesCopied(s, j, k);
  }

  /** Where no indented heading opens, the character is kept and scanning goes on from the next one. */
  lemma UnindentNoMatch(s: string, i: nat)
    requires i < |s| && !(AtLineStart(s, i) && IndentedHeadingAt(s, i).Some?)
    ensures UnindentFrom(s, i) == [s[i]] + UnindentFrom(s, i + 1)
  {
  }

  /** Where no line start from i on opens an indented heading, nothing is
      removed: whitespace in the middle of a line, or before text other than
      `#`, stays. */
  lemma {:induction false} UnindentKeepsAll(s: string, i: nat)
    requires i <= |s|
    requires forall k :: i <= k < |s| && AtLineStart(s, k) ==> IndentedHeadingAt(s, k).None?
    ensures UnindentFrom(s, i) == s[i..]
    decreases |s| - i
  {
    if i < |s| {
      UnindentKeepsAll(s, i + 1);
      assert s[i..] == [s[i]] + s[i + 1..];
    }
  }

  /** A single line that does not start with whitespace is left as it is, `#` included. */
  lemma UnindentOneLine(s: string)
    requires forall k :: 0 <= k < |s| ==> s[k] != '\n'
    requires s == [] || !PySpace(s[0])
    ensures UnindentHeadings(s) == s
  {
    if s != [] {
      assert RunEnd(s, 0, PySpace) == 0;
    }
    UnindentKeepsAll(s, 0);
  }

  /** "x  # C" keeps its spaces: they do not start the line. */
  lemma MidLineHashKept()
    ensures UnindentHeadings("x  # C") == "x  # C"
  {
    UnindentOneLine("x  # C");
  }

  /** A text without `#` is left as it is. */
  lemma {:induction false} UnindentPlain(s: string, i: nat)
    requires i <= |s|
    requires forall k :: 0 <= k < |s| ==> s[k] != '#'
    ensures UnindentFrom(s, i) == s[i..]
    decreases |s| - i
  {
    if i < |s| {
      UnindentPlain(s, i + 1);
      assert s[i..] == [s[i]] + s[i + 1..];
    }
  }

  // ---------------------------------------------------------------------------
  // Endpoints that only call the model.
  // ---------------------------------------------------------------------------

  /** `get_gemini_response_async`: the study guide, headings un-indented, or a 500. */
  method GenerateGuide(clientReady: bool, ai: nat -> AiOutcome) returns (r: Either<string, HttpError>)
    ensures !clientReady ==> r == Err(HttpError(500, NotConfigured))
    ensures clientReady && Retry(ai, 0).result.Ok? ==> r == Ok(UnindentHeadings(Retry(ai, 0).result.value))
    ensures clientReady && Retry(ai, 0).result.Err? ==>
      r == Err(HttpError(500, "AI generation failed: " + Retry(ai, 0).result.error))
  {
    if !clientReady {
      return Err(HttpError(500, NotConfigured));
    }
    var result, _, _ := CallWithRetry(ai);
    match result
    case Ok(text) => r := Ok(UnindentHeadings(text));
    case Err(message) => r := Err(HttpError(500, "AI generation failed: " + message));
  }

  /** `translate_text`: the translation or a 500. */
  method TranslateText(clientReady: bool, ai: nat -> AiOutcome) returns (r: Either<string, HttpError>)
    ensures !clientReady ==> r == Err(HttpError(500, NotConfigured))
    ensures clientReady && Retry(ai, 0).result.Ok? ==> r == Ok(Retry(ai, 0).result.value)
    ensures clientReady && Retry(ai, 0).result.Err? ==>
      r == Err(HttpError(500, "Translation failed: " + Retry(ai, 0).result.error))
  {
    if !clientReady {
      return Err(HttpError(500, NotConfigured));
    }
    var result, _, _ := CallWithRetry(ai);
    match result
    case Ok(text) => r := Ok(text);
    case Err(message) => r := Err(HttpError(500, "Translation failed: " + message));
  }

  // ---------------------------------------------------------------------------
  // Upload validation and quiz source selection.
  // ---------------------------------------------------------------------------

  datatype FileKind = Pdf | Docx

  /** `file.filename.endswith((".pdf", ".docx"))`: case-sensitive. */
  predicate AcceptedExtension(filename: string) {
    EndsWith(filename, ".pdf") || EndsWith(filename, ".docx")
  }

  /** Upper-case extensions are refused. */
  lemma ExtensionIsCaseSensitive()
    ensures AcceptedExtension("notes.pdf") && AcceptedExtension("notes.docx")
    ensures !AcceptedExtension("notes.PDF") && !AcceptedExtension("notes.Docx")
  {
    assert "notes.pdf"[5..] == ".pdf";
    assert "notes.docx"[5..] == ".docx";
    assert "notes.PDF"[5..] != ".pdf";
    assert "notes.Docx"[5..] != ".docx";
    assert "notes.Docx"[6..] != ".pdf";
  }

  /** Which extractor runs for an accepted name. */
  function KindOf(filename: string): (k: FileKind)
    requires AcceptedExtension(filename)
    ensures k == Pdf <==> EndsWith(filename, ".pdf")
    ensures k == Docx ==> EndsWith(filename, ".docx")
  {
    if EndsWith(filename, ".pdf") then Pdf else Docx
  }

  /** The text the quiz is made from: a known `doc_id` first, then a non-empty
      `text`, else a 400. An empty string stands for a missing field. */
  function QuizSource(documents: map<string, string>, docId: string, text: string): (r: Either<string, HttpError>)
    ensures r.Err? <==> (docId == [] || docId !in documents) && text == []
    ensures r.Err? ==> r.error == HttpError(400, NoQuizSource)
    ensures docId != [] && docId in documents ==> r == Ok(documents[docId])
    ensures (docId == [] || docId !in documents) && text != [] ==> r == Ok(text)
  {
    if docId != [] && docId in documents then Ok(documents[docId])
    else if text != [] then Ok(text)
    else Err(HttpError(400, NoQuizSource))
  }

  /** What a successful upload answers. */
  datatype UploadReply = UploadReply(filename: string, studyGuide: string, docId: string)

  class Server {
    /** The in-memory `documents` table: document id to extracted text. */
    var documents: map<string, string>

    constructor ()
      ensures documents == map[]
    {
      documents := map[];
    }

    /** `upload_file`: check the extension, extract the text, refuse blank text,
        store it under the fresh id `newId`, then generate the study guide.
        `extract` is what the extractor for each kind yields (Err when it raises).
        The text stays stored when the guide cannot be generated. */
    method Upload(filename: string, extract: FileKind -> Either<string, string>, newId: string,
                  clientReady: bool, ai: nat -> AiOutcome)
      returns (r: Either<UploadReply, HttpError>)
      modifies this
      ensures !AcceptedExtension(filename) ==>
        r == Err(HttpError(400, BadExtension)) && documents == old(documents)
      ensures AcceptedExtension(filename) && extract(KindOf(filename)).Err? ==>
        r == Err(HttpError(500, "An error occurred: " + extract(KindOf(filename)).error))
        && documents == old(documents)
      ensures AcceptedExtension(filename) && extract(KindOf(filename)).Ok? && Blank(extract(KindOf(filename)).value) ==>
        r == Err(HttpError(400, NoText)) && documents == old(documents)
      ensures AcceptedExtension(filename) && extract(KindOf(filename)).Ok? && !Blank(extract(KindOf(filename)).value) ==>
        && documents == old(documents)[newId := extract(KindOf(filename)).value]
        && (!clientReady ==> r == Err(HttpError(500, NotConfigured)))
        && (clientReady && Retry(ai, 0).result.Ok? ==>
              r == Ok(UploadReply(filename, UnindentHeadings(Retry(ai, 0).result.value), newId)))
        && (clientReady && Retry(ai, 0).result.Err? ==>
              r == Err(HttpError(500, "AI generation failed: " + Retry(ai, 0).result.error)))
    {
      if !AcceptedExtension(filename) {
        return Err(HttpError(400, BadExtension));
      }
      var extracted := extract(KindOf(filename));
      if extracted.Err? {
        return Err(HttpError(500, "An error occurred: " + extracted.error));
      }
      var text := extracted.value;
      StripEmptyIffBlank(text);
      if Strip(text) == [] {
        return Err(HttpError(400, NoText));
      }
      documents := documents[newId := text];
      var guide := GenerateGuide(clientReady, ai);
      match guide
      case Ok(studyGuide) => r := Ok(UploadReply(filename, studyGuide, newId));
      case Err(e) => r := Err(e);
    }

    /** `chat_with_document`: an unknown id is a 404; once the document is
        found, a failing model gives the fixed apology, never an error status. */
    method Chat(docId: string, clientReady: bool, ai: nat -> AiOutcome) returns (r: Either<string, HttpError>)
      ensures docId !in documents ==> r == Err(HttpError(404, UnknownDocument))
      ensures docId in documents && !clientReady ==> r == Err(HttpError(500, NotConfigured))
      ensures docId in documents && clientReady ==> r.Ok?
      ensures docId in documents && clientReady && Retry(ai, 0).result.Ok? ==> r == Ok(Retry(ai, 0).result.value)
      ensures docId in documents && clientReady && Retry(ai, 0).result.Err? ==> r == Ok(Apology)
    {
      if docId !in documents {
        return Err(HttpError(404, UnknownDocument));
      }
      if !clientReady {
        return Err(HttpError(500, NotConfigured));
      }
      var result, _, _ := CallWithRetry(ai);
      match result
      case Ok(answer) => r := Ok(answer);
      case Err(_) => r := Ok(Apology);
    }

    /** `generate_quiz`: pick the source text, then ask the model; the reply
        (already parsed: a parse failure is one of the oracle's errors) or a 500
        whose detail is the error's text. */
    method GenerateQuiz(docId: string, text: string, clientReady: bool, ai: nat -> AiOutcome)
      returns (r: Either<string, HttpError>)
      ensures QuizSource(documents, docId, text).Err? ==> r == Err(HttpError(400, NoQuizSource))
      ensures QuizSource(documents, docId, text).Ok? && !clientReady ==> r == Err(HttpError(500, QuizNotConfigured))
      ensures QuizSource(documents, docId, text).Ok? && clientReady && Retry(ai, 0).result.Ok? ==>
        r == Ok(Retry(ai, 0).result.value)
      ensures QuizSource(documents, docId, text).Ok? && clientReady && Retry(ai, 0).result.Err? ==>
        r == Err(HttpError(500, Retry(ai, 0).result.error))
    {
      var source := QuizSource(documents, docId, text);
      if source.Err? {
        return Err(source.error);
      }
      if !clientReady {
        return Err(HttpError(500, QuizNotConfigured));
      }
      var result, _, _ := CallWithRetry(ai);
      match result
      case Ok(quiz) => r := Ok(quiz);
      case Err(message) => r := Err(HttpError(500, message));
    }
  }

  /** A document stored by upload is what chat and quiz then find under its id. */
  method UploadThenQuiz(s: Server, filename: string, text: string, newId: string, ai: nat -> AiOutcome)
    requires AcceptedExtension(filename) && !Blank(text) && newId != []
    modifies s
    ensures newId in s.documents && s.documents[newId] == text
    ensures QuizSource(s.documents, newId, []) == Ok(text)
  {
    var _ := s.Upload(filename, _ => Ok(text), newId, true, ai);
  }
}
