/** What a failed `POST /api/comments` turns into, shared by both forms. */
module CommentPost {
  import opened Wrappers

  /** The outcome of the request, abstracted from `fetch`:
      `Rejected` is a non-ok response whose JSON body's
      `errors?.[0]?.message` is `firstMessage` (None when absent or not a
      string); `Thrown` is an exception from `fetch` or from reading the
      body, with its `message` when it is an `Error`. */
  datatype Response = Ok | Rejected(firstMessage: Option<string>) | Thrown(errorMessage: Option<string>)

  /** The text the form shows after a failed request: the server's first
      message unless empty, else `fallback`; an `Error`'s message; for a
      thrown non-`Error`, `lastResort`. */
  function FailureText(r: Response, fallback: string, lastResort: string): (text: string)
    requires !r.Ok?
    ensures r.Rejected? && r.firstMessage.Some? && r.firstMessage.value != "" ==> text == r.firstMessage.value
    ensures r.Rejected? && (r.firstMessage.None? || r.firstMessage.value == "") ==> text == fallback
    ensures r.Thrown? && r.errorMessage.Some? ==> text == r.errorMessage.value
    ensures r == Thrown(None) ==> text == lastResort
  {
    match r
    case Rejected(m) => if m.Some? && m.value != "" then m.value else fallback
    case Thrown(e) => if e.Some? then e.value else lastResort
  }

  /** A rejection never shows an empty error when the fallback is not empty. */
  lemma RejectionIsNeverSilent(m: Option<string>, fallback: string, lastResort: string)
    requires fallback != ""
    ensures FailureText(Rejected(m), fallback, lastResort) != ""
  {
  }
}

/** The top-level comment form: fields, submit and reset. */
module CommentForm {
  import opened Wrappers
  import opened Json
  import opened ContentChecks
  import opened CommentPost

  const PleaseWrite := "Please write a comment"
  const DefaultFailure := "Failed to post comment"
  const ThrownFailure := "Failed to post comment. Please try again."

  datatype State = State(
    name: string, email: string, editor: Option<Json>,
    isSubmitting: bool, error: string, success: bool, resetKey: int)

  const Initial := State("", "", None, false, "", false, 0)

  /** The result of one submit: the new state, the JSON body posted (if
      any), and whether the handler threw before reaching its `try`. */
  datatype Submitted = Submitted(state: State, request: Option<Json>, crashed: bool)

  /** The body posted to `/api/comments`. */
  function CommentBody(name: string, email: string, content: Json, postId: string): Json {
    JObj([
      Field("author", JObj([Field("name", JStr(name)), Field("email", JStr(email))])),
      Field("content", content),
      Field("post", JStr(postId))])
  }

  /** `handleSubmit`. `response` is what the request would return; it is
      consulted only when a request is sent. */
  function Submit(s: State, postId: string, response: Response): (r: Submitted)
    // starting a submit clears the error and the success banner
    ensures !r.crashed ==> !r.state.isSubmitting
    ensures r.crashed <==> s.editor.Some? && CommentHasContent(s.editor.value) == Throws
    ensures r.crashed ==> r.state == s.(isSubmitting := true, error := "", success := false) && r.request.None?
    // nothing to post
    ensures s.editor.None? || CommentHasContent(s.editor.value) == Val(false) ==>
      r.state == s.(isSubmitting := false, error := PleaseWrite, success := false) && r.request.None?
    // posted
    ensures r.request.Some? <==> s.editor.Some? && CommentHasContent(s.editor.value) == Val(true)
    ensures r.request.Some? ==> r.request.value == CommentBody(s.name, s.email, s.editor.value, postId)
    ensures r.request.Some? && response.Ok? ==>
      r.state == State("", "", None, false, "", true, s.resetKey + 1)
    ensures r.request.Some? && !response.Ok? ==>
      r.state == s.(isSubmitting := false, error := FailureText(response, DefaultFailure, ThrownFailure), success := false)
  {
    var started := s.(isSubmitting := true, error := "", success := false);
    if s.editor.None? then
      Submitted(started.(error := PleaseWrite, isSubmitting := false), None, false)
    else match CommentHasContent(s.editor.value)
      case Throws => Submitted(started, None, true)
      case Val(false) => Submitted(started.(error := PleaseWrite, isSubmitting := false), None, false)
      case Val(true) =>
        var body := CommentBody(s.name, s.email, s.editor.value, postId);
        if response.Ok? then
          Submitted(started.(name := "", email := "", editor := None, resetKey := s.resetKey + 1,
                             success := true, isSubmitting := false), Some(body), false)
        else
          Submitted(started.(error := FailureText(response, DefaultFailure, ThrownFailure), isSubmitting := false),
                    Some(body), false)
  }

  /** The posted body carries the author, the content and the post id as a
      string, and no `parent`. */
  lemma CommentBodyFields(name: string, email: string, content: Json, postId: string)
    ensures var body := CommentBody(name, email, content, postId);
      Get(body, "post") == Some(JStr(postId)) && Get(body, "content") == Some(content)
      && Get(body, "parent") == None
      && Get(Get(body, "author").value, "name") == Some(JStr(name))
      && Get(Get(body, "author").value, "email") == Some(JStr(email))
  {
    var body := CommentBody(name, email, content, postId);
    GetOfLiteral(body.fields, 1);
    GetOfLiteral(body.fields, 2);
    GetOfLiteral(body.fields[0].value.fields, 1);
  }

  /** User events of the form. */
  datatype Event = NameTyped(name: string) | EmailTyped(email: string) | EditorChanged(json: Json)
                 | SubmitPressed(response: Response)

  function Step(s: State, postId: string, e: Event): (t: State)
    ensures e.SubmitPressed? ==> t == Submit(s, postId, e.response).state
    ensures !e.SubmitPressed? ==> t.resetKey == s.resetKey && t.success == s.success && t.error == s.error
    ensures e.NameTyped? ==> t == s.(name := e.name)
    ensures e.EmailTyped? ==> t == s.(email := e.email)
    ensures e.EditorChanged? ==> t == s.(editor := Some(e.json))
  {
    match e
    case NameTyped(v) => s.(name := v)
    case EmailTyped(v) => s.(email := v)
    case EditorChanged(j) => s.(editor := Some(j))
    case SubmitPressed(response) => Submit(s, postId, response).state
  }

  function Run(s: State, postId: string, events: seq<Event>): State
    decreases |events|
  {
    if |events| == 0 then s else Run(Step(s, postId, events[0]), postId, events[1..])
  }

  /** The success banner and an error message are never shown together. */
  predicate Consistent(s: State) {
    !(s.success && s.error != "")
  }

  lemma StepKeepsConsistent(s: State, postId: string, e: Event)
    requires Consistent(s)
    ensures Consistent(Step(s, postId, e))
  {
    if e.SubmitPressed? {
      var r := Submit(s, postId, e.response);
      if r.request.Some? && !e.response.Ok? {
        assert !r.state.success;
      }
    }
  }

  lemma {:induction false} RunKeepsConsistent(s: State, postId: string, events: seq<Event>)
    requires Consistent(s)
    ensures Consistent(Run(s, postId, events))
    decreases |events|
  {
    if |events| > 0 {
      StepKeepsConsistent(s, postId, events[0]);
      RunKeepsConsistent(Step(s, postId, events[0]), postId, events[1..]);
    }
  }

  /** Successful submits among the events, given the state each starts from. */
  function Successes(s: State, postId: string, events: seq<Event>): nat
    decreases |events|
  {
    if |events| == 0 then 0
    else
      var e := events[0];
      var counted := if e.SubmitPressed? && Submit(s, postId, e.response).request.Some? && e.response.Ok? then 1 else 0;
      counted + Successes(Step(s, postId, e), postId, events[1..])
  }

  /** `resetKey` counts successful submissions: each one remounts the editor
      exactly once, and nothing else changes it. */
  lemma {:induction false} ResetKeyCountsSuccesses(s: State, postId: string, events: seq<Event>)
    ensures Run(s, postId, events).resetKey == s.resetKey + Successes(s, postId, events)
    decreases |events|
  {
    if |events| > 0 {
      ResetKeyCountsSuccesses(Step(s, postId, events[0]), postId, events[1..]);
    }
  }
}

/** The reply form shown under a top-level comment. */
module ReplyForm {
  import opened Wrappers
  import opened Json
  import opened ContentChecks
  import opened CommentPost

  const PleaseWrite := "Please write a reply"
  const DefaultFailure := "Failed to post reply"
  const ThrownFailure := "Failed to post reply. Please try again."

  datatype State = State(name: string, email: string, editor: Option<Json>, isSubmitting: bool, error: string)

  const Initial := State("", "", None, false, "")

  /** The result of one submit: the new state, the body posted, whether
      `onSuccess` was called, and whether the handler threw before its `try`. */
  datatype Submitted = Submitted(state: State, request: Option<Json>, calledOnSuccess: bool, crashed: bool)

  /** The body posted to `/api/comments`: the post and parent ids are numbers. */
  function ReplyBody(name: string, email: string, content: Json, postId: int, parentId: int): Json {
    JObj([
      Field("author", JObj([Field("name", JStr(name)), Field("email", JStr(email))])),
      Field("content", content),
      Field("post", JNum(postId as real)),
      Field("parent", JNum(parentId as real))])
  }

  /** `handleSubmit`. */
  function Submit(s: State, postId: int, parentId: int, response: Response): (r: Submitted)
    ensures !r.crashed ==> !r.state.isSubmitting
    ensures r.crashed <==> s.editor.Some? && ReplyHasContent(s.editor.value) == Throws
    ensures r.crashed ==> r.state == s.(isSubmitting := true, error := "") && r.request.None?
    ensures s.editor.None? || ReplyHasContent(s.editor.value) == Val(false) ==>
      r.state == s.(isSubmitting := false, error := PleaseWrite) && r.request.None? && !r.calledOnSuccess
    ensures r.request.Some? <==> s.editor.Some? && ReplyHasContent(s.editor.value) == Val(true)
    ensures r.request.Some? ==> r.request.value == ReplyBody(s.name, s.email, s.editor.value, postId, parentId)
    // onSuccess only after an ok response; the fields are left as typed
    ensures r.calledOnSuccess <==> r.request.Some? && response.Ok?
    ensures r.calledOnSuccess ==> r.state == s.(isSubmitting := false, error := "")
    ensures r.request.Some? && !response.Ok? ==>
      r.state == s.(isSubmitting := false, error := FailureText(response, DefaultFailure, ThrownFailure))
  {
    var started := s.(isSubmitting := true, error := "");
    if s.editor.None? then
      Submitted(started.(error := PleaseWrite, isSubmitting := false), None, false, false)
    else match ReplyHasContent(s.editor.value)
      case Throws => Submitted(started, None, false, true)
      case Val(false) => Submitted(started.(error := PleaseWrite, isSubmitting := false), None, false, false)
      case Val(true) =>
        var body := ReplyBody(s.name, s.email, s.editor.value, postId, parentId);
        if response.Ok? then Submitted(started.(isSubmitting := false), Some(body), true, false)
        else
          Submitted(started.(error := FailureText(response, DefaultFailure, ThrownFailure), isSubmitting := false),
                    Some(body), false, false)
  }

  /** The posted body names both the post and the parent comment. */
  lemma ReplyBodyFields(name: string, email: string, content: Json, postId: int, parentId: int)
    ensures var body := ReplyBody(name, email, content, postId, parentId);
      Get(body, "post") == Some(JNum(postId as real)) && Get(body, "parent") == Some(JNum(parentId as real))
      && Get(body, "content") == Some(content)
  {
    var body := ReplyBody(name, email, content, postId, parentId);
    GetOfLiteral(body.fields, 1);
    GetOfLiteral(body.fields, 2);
    GetOfLiteral(body.fields, 3);
  }

  /** On editor-shaped content, whatever the comment form would post the
      reply form posts as well. */
  lemma ReplyPostsWhatCommentPosts(s: State, postId: int, parentId: int, response: Response)
    requires s.editor.Some? && ShapedDoc(s.editor.value) && CommentHasContent(s.editor.value) == Val(true)
    ensures Submit(s, postId, parentId, response).request.Some?
  {
    CommentCheckImpliesReplyCheck(s.editor.value);
  }
}
