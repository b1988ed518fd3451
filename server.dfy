/**
 * The webhook server of src/main.rs: start-up against the printer, the
 * routing of GitHub webhook events to a reply or a text to print, the
 * `truncate` helper, and `call_printer`, which frames an image exactly as
 * src/printer.rs does but without the wake write.
 */
module Server {
  import opened Wrappers
  import opened Hex
  import opened ImageBuf
  import opened Instruction
  import opened Dither
  import opened Printer

  // ---------------------------------------------------------------------
  // truncate
  // ---------------------------------------------------------------------

  /**
   * `truncate(s, n)`: the first n characters of s, or all of s when it is
   * shorter. A Rust `char` is a Unicode scalar value, as a Dafny `char` is.
   */
  function Truncate(s: string, n: nat): (r: string)
    ensures r <= s
    ensures |r| == if |s| <= n then |s| else n
  {
    if |s| <= n then s else s[..n]
  }

  /** Truncating twice to the same width changes nothing the second time. */
  lemma TruncateIdempotent(s: string, n: nat)
    ensures Truncate(Truncate(s, n), n) == Truncate(s, n)
  {
  }

  // ---------------------------------------------------------------------
  // Webhook payloads and routing
  // ---------------------------------------------------------------------

  datatype User = User(login: string)
  datatype Comment = Comment(body: string, user: Option<User>)
  datatype Issue = Issue(title: string, body: Option<string>)
  datatype Repository = Repository(fullName: string)

  /** The deserialised JSON body of a webhook delivery. */
  datatype Webhook = Webhook(
    zen: Option<string>,
    action: Option<string>,
    issue: Option<Issue>,
    comment: Option<Comment>,
    repository: Repository)

  /** What the handler does with a delivery. */
  datatype Reply =
    | Respond(status: nat)      // answer with this status and print nothing
    | Print(text: string)       // print this text, then answer 200 (a failed print panics)
    | Panicked                  // an `unwrap` of a missing field

  /** The value used when the `X-GitHub-Event` header is absent. */
  const DEFAULT_EVENT: string := "none"

  /** Issue bodies are cut to this many characters. */
  const BODY_CHARS: nat := 60

  /** The line every printed text opens with: the time, then the repository. */
  function Banner(now: string, repo: string): string {
    now + "\nREPO: " + repo + "\n"
  }

  function IssueText(now: string, repo: string, title: string, body: string): string {
    Banner(now, repo) + "新的 ISSUE 来了来了来了！\nISSUE Title: " + title + "\nContent:\n " + body
  }

  function CommentText(now: string, repo: string, title: string, login: string): string {
    Banner(now, repo) + "ISSUE: " + title + "\n" + login + " 刚刚留下了评论"
  }

  function PingText(now: string, repo: string, zen: string): string {
    Banner(now, repo) + zen + "\n ---- SETUP DONE --- "
  }

  /** The three events that are printed. */
  predicate Handled(event: string) {
    event == "issues" || event == "issue_comment" || event == "ping"
  }

  /**
   * The branch of `github_webhooks` taken for an event header and a payload.
   * `now` is the formatted current time and `clean` stands for trimming the
   * issue body and deleting Markdown links and images from it.
   */
  function Route(header: Option<string>, hook: Webhook, now: string, clean: string -> string): (r: Reply)
    ensures var event := header.GetOr(DEFAULT_EVENT);
      (r == Respond(400) <==> !Handled(event)) &&
      (r == Respond(200) <==>
        (event == "issues" || event == "issue_comment") && hook.action.Some? &&
        hook.action.value != (if event == "issues" then "opened" else "created")) &&
      (r.Respond? ==> r.status == 200 || r.status == 400) &&
      (r.Print? ==> Handled(event) && Banner(now, hook.repository.fullName) <= r.text)
  {
    var event := header.GetOr(DEFAULT_EVENT);
    var repo := hook.repository.fullName;
    if event == "issues" then
      if hook.action.None? then Panicked
      else if hook.action.value != "opened" then Respond(200)
      else if hook.issue.None? then Panicked
      else
        var issue := hook.issue.value;
        Print(IssueText(now, repo, issue.title, Truncate(clean(issue.body.GetOr("")), BODY_CHARS)))
    else if event == "issue_comment" then
      if hook.action.None? then Panicked
      else if hook.action.value != "created" then Respond(200)
      else if hook.issue.None? || hook.comment.None? || hook.comment.value.user.None? then Panicked
      else Print(CommentText(now, repo, hook.issue.value.title, hook.comment.value.user.value.login))
    else if event == "ping" then
      if hook.zen.None? then Panicked
      else Print(PingText(now, repo, hook.zen.value))
    else Respond(400)
  }

  /** A delivery without the event header is refused with 400 and nothing is printed. */
  lemma MissingHeaderRefused(hook: Webhook, now: string, clean: string -> string)
    ensures Route(None, hook, now, clean) == Respond(400)
  {
    assert !Handled(DEFAULT_EVENT);
  }

  /**
   * An opened issue is printed with its body cleaned and cut to 60
   * characters; the printed text ends with that cut body.
   */
  lemma OpenedIssuePrinted(hook: Webhook, now: string, clean: string -> string)
    requires hook.action == Some("opened") && hook.issue.Some?
    ensures var body := Truncate(clean(hook.issue.value.body.GetOr("")), BODY_CHARS);
      var r := Route(Some("issues"), hook, now, clean);
      r.Print? && |body| <= BODY_CHARS &&
      r.text == IssueText(now, hook.repository.fullName, hook.issue.value.title, body) &&
      r.text[|r.text| - |body|..] == body
  {
  }

  // ---------------------------------------------------------------------
  // Start-up and printing
  // ---------------------------------------------------------------------

  /**
   * The start-up in `main` before the server runs: every lookup failure
   * panics (`panic!`, `expect`, `unwrap`) instead of returning an error;
   * only the setup writes fail with an error.
   */
  method StartUp(link: Link, ps: seq<Peripheral>) returns (r: Result<Characteristic, Failure>)
    modifies link
    ensures Discovery(ps).Err? ==> link.log == old(link.log) && r == Err(Panic)
    ensures Discovery(ps).Ok? ==>
      link.log == old(link.log) + Issued(SETUP_PLAN, |old(link.log)|, link.accepts) &&
      r == if Outcome(SETUP_PLAN, |old(link.log)|, link.accepts).Ok? then Ok(Discovery(ps).value.1) else Err(WriteFailed)
  {
    if |ps| == 0 {
      return Err(Panic);
    }
    var found := FindPrinter(ps);
    if found.Err? {
      return Err(Panic);
    }
    var cmd := FindChar(found.value.characteristics, WRITE_UUID);
    if cmd.None? {
      return Err(Panic);
    }
    var done := Setup(link);
    if done.Err? {
      return Err(done.error);
    }
    r := Ok(cmd.value);
  }

  /** The writes of the server's `call_printer`: the frames of the image's packed text, with no wake write. */
  function ServerJobPlan(img: GrayImage): (p: Plan)
    requires WellFormed(img)
    ensures forall wake: seq<byte> {:trigger JobPlan(wake, img)} :: JobPlan(wake, img) == Plan([wake] + p.writes, p.tail)
  {
    ImageHexBound(img);
    FramePlan(ImageHex(img))
  }

  /** `call_printer` in src/main.rs, for the image `generate_image` rendered from the text. */
  method CallPrinter(link: Link, img: GrayImage) returns (r: Result<(), Failure>)
    requires WellFormed(img)
    modifies link
    ensures link.log == old(link.log) + Issued(ServerJobPlan(img), |old(link.log)|, link.accepts)
    ensures r == Outcome(ServerJobPlan(img), |old(link.log)|, link.accepts)
  {
    var hex := MakeImageHexStr(img);
    ImageHexBound(img);
    r := SendFrames(link, hex);
  }

  /**
   * When the wake write succeeds, the printer-module job issues the wake
   * bytes and then exactly what the server's job issues, and ends the same way.
   */
  lemma JobsAgree(wake: seq<byte>, img: GrayImage, start: nat, accepts: (nat, seq<byte>) -> bool)
    requires WellFormed(img) && accepts(start, wake)
    ensures Issued(JobPlan(wake, img), start, accepts) == [wake] + Issued(ServerJobPlan(img), start + 1, accepts)
    ensures Outcome(JobPlan(wake, img), start, accepts) == Outcome(ServerJobPlan(img), start + 1, accepts)
  {
    RunCons(wake, ServerJobPlan(img), start, accepts);
  }
}
