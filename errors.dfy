/**
 * The exceptions that reach `handle_completion_error` and the policy that
 * turns them into a status-line message or lets them propagate.
 * vim_ai.py and utils.py carry the same policy, except that utils.py also
 * reports its own `KnownError`.
 */
module Errors {
  import opened Text

  /** Why a `URLError` was raised: only a socket timeout is told apart. */
  datatype UrlReason = SocketTimeout | OtherReason(text: string)

  /** The exceptions the plugin can see, each with what `str()` needs of it. */
  datatype Error =
    | KeyboardInterrupt
    | HostError(text: string)             // raised by the editor, e.g. Neovim's NvimError
    | UrlError(reason: UrlReason)         // a URLError that is not an HTTPError
    | HttpError(code: int, msg: string)
    | KnownError(text: string)            // defined in utils.py only
    | ValueError(text: string)
    | OsError(text: string)
    | IndexError

  /** `str(error)` */
  function ErrorText(e: Error): string {
    match e
    case KeyboardInterrupt => ""
    case HostError(t) => t
    case UrlError(SocketTimeout) => "<urlopen error timed out>"
    case UrlError(OtherReason(t)) => "<urlopen error " + t + ">"
    case HttpError(code, msg) => "HTTP Error " + IntToString(code) + ": " + msg
    case KnownError(t) => t
    case ValueError(t) => t
    case OsError(t) => t
    case IndexError => "list index out of range"
  }

  /** What the handler does: echo a message, or raise the error again. */
  datatype Handling = Report(message: string) | Reraise

  const CancelledMessage := "Completion cancelled..."
  const TimeoutMessage := "Request timeout..."
  const ApiKeyHint := " (Hint: verify that your API key is valid)"
  const AccessHint := " (Hint: verify that you have access to the OpenAI API and to the model)"
  const BillingHint := " (Hint: verify that your billing plan is \"Pay as you go\")"

  /** A keyboard interrupt, or Neovim's error that reports one in its text. */
  predicate IsCancellation(e: Error) {
    e.KeyboardInterrupt? || Contains(ErrorText(e), "Keyboard interrupt")
  }

  predicate IsTimeout(e: Error) {
    e.UrlError? && e.reason.SocketTimeout?
  }

  /** The message for an HTTP status; 404 and 429 are one if/elif chain, 401 a separate if. */
  function HttpMessage(code: int): string {
    var msg := "OpenAI: HTTPError " + IntToString(code);
    var msg := if code == 401 then msg + ApiKeyHint else msg;
    if code == 404 then msg + AccessHint
    else if code == 429 then msg + BillingHint
    else msg
  }

  /** `handle_completion_error` as vim_ai.py has it. */
  function HandleErrorVimAi(e: Error): Handling {
    if IsCancellation(e) then Report(CancelledMessage)
    else if IsTimeout(e) then Report(TimeoutMessage)
    else if e.HttpError? then Report(HttpMessage(e.code))
    else Reraise
  }

  /** `handle_completion_error` as utils.py has it: one more branch, for `KnownError`. */
  function HandleErrorUtils(e: Error): Handling {
    if IsCancellation(e) then Report(CancelledMessage)
    else if IsTimeout(e) then Report(TimeoutMessage)
    else if e.HttpError? then Report(HttpMessage(e.code))
    else if e.KnownError? then Report(ErrorText(e))
    else Reraise
  }

  /** Each hinted status gets exactly its own hint and no other: 401 the API key, 404 access, 429 billing. */
  lemma HttpHints(code: int)
    requires code == 401 || code == 404 || code == 429
    ensures HttpMessage(code) == "OpenAI: HTTPError " + IntToString(code)
              + (if code == 401 then ApiKeyHint else if code == 404 then AccessHint else BillingHint)
  {
  }

  /** The three hinted statuses print as their usual digits. */
  lemma StatusDigits()
    ensures IntToString(401) == "401" && IntToString(404) == "404" && IntToString(429) == "429"
  {
    assert NatToString(4) == "4";
    assert NatToString(40) == "40";
    assert NatToString(42) == "42" by { assert NatToString(4) == "4"; }
  }

  /** The three hinted messages, as the user reads them. */
  lemma HintedMessages()
    ensures HttpMessage(401) == "OpenAI: HTTPError 401" + ApiKeyHint
    ensures HttpMessage(404) == "OpenAI: HTTPError 404" + AccessHint
    ensures HttpMessage(429) == "OpenAI: HTTPError 429" + BillingHint
  {
    StatusDigits();
    HttpHints(401);
    HttpHints(404);
    HttpHints(429);
  }

  /** Any other status is reported by its number alone. */
  lemma HttpNoHint(code: int)
    requires code != 401 && code != 404 && code != 429
    ensures HttpMessage(code) == "OpenAI: HTTPError " + IntToString(code)
  {
  }

  /** An HTTP error is always reported, never raised again, and its message names the status. */
  lemma HttpAlwaysReported(code: int, msg: string)
    requires !Contains(msg, "Keyboard interrupt")
    ensures HandleErrorUtils(HttpError(code, msg)) == HandleErrorVimAi(HttpError(code, msg))
    ensures HandleErrorVimAi(HttpError(code, msg)) == Report(HttpMessage(code))
    ensures StartsWith(HttpMessage(code), "OpenAI: HTTPError " + IntToString(code))
  {
    NoKeyboardInterruptInHttpText(code, msg);
  }

  /** The fixed part of an HTTP error's text cannot hold "Keyboard interrupt". */
  lemma NoKeyboardInterruptInHttpText(code: int, msg: string)
    requires !Contains(msg, "Keyboard interrupt")
    ensures !Contains(ErrorText(HttpError(code, msg)), "Keyboard interrupt")
  {
    var digits := IntToString(code);
    assert forall i :: 0 <= i < |digits| ==> digits[i] == '-' || '0' <= digits[i] <= '9';
    assert "Keyboard interrupt"[0] == 'K';
    var t := "HTTP Error " + digits + ": " + msg;
    ContainsSuffix(t, "Keyboard interrupt", |"HTTP Error " + digits + ": "|);
  }

  /** No occurrence of `sub` can start among the first `n` characters when none of them is `sub[0]`. */
  lemma ContainsSuffix(s: string, sub: string, n: nat)
    requires n <= |s| && sub != []
    requires forall i :: 0 <= i < n ==> s[i] != sub[0]
    ensures Contains(s, sub) ==> Contains(s[n..], sub)
    decreases n
  {
    if n > 0 {
      assert s[0] != sub[0];
      assert !StartsWith(s, sub);
      ContainsSuffix(s[1..], sub, n - 1);
      assert s[1..][n - 1..] == s[n..];
    }
  }

  /** The two copies agree on every error except a `KnownError`. */
  lemma VariantsAgreeExceptKnownError(e: Error)
    requires !e.KnownError?
    ensures HandleErrorUtils(e) == HandleErrorVimAi(e)
  {
  }

  /** utils.py reports a `KnownError` by its own text; vim_ai.py raises it again. */
  lemma KnownErrorReported(t: string)
    requires !Contains(t, "Keyboard interrupt")
    ensures HandleErrorUtils(KnownError(t)) == Report(t)
    ensures HandleErrorVimAi(KnownError(t)) == Reraise
  {
  }

  /** An error is raised again exactly when it falls in none of the classes. */
  lemma ReraiseIffUnclassified(e: Error)
    ensures HandleErrorUtils(e).Reraise? <==> !IsCancellation(e) && !IsTimeout(e) && !e.HttpError? && !e.KnownError?
    ensures HandleErrorVimAi(e).Reraise? <==> !IsCancellation(e) && !IsTimeout(e) && !e.HttpError?
  {
  }

  /** Timeouts and interrupts map to fixed messages, in both copies. */
  lemma FixedMessages()
    ensures HandleErrorVimAi(KeyboardInterrupt) == Report(CancelledMessage)
    ensures HandleErrorUtils(KeyboardInterrupt) == Report(CancelledMessage)
    ensures HandleErrorVimAi(UrlError(SocketTimeout)) == Report(TimeoutMessage)
    ensures HandleErrorUtils(UrlError(SocketTimeout)) == Report(TimeoutMessage)
  {
    TimeoutTextIsNotInterrupt();
  }

  lemma TimeoutTextIsNotInterrupt()
    ensures !IsCancellation(UrlError(SocketTimeout))
  {
    MissingFirstCharNotContained(ErrorText(UrlError(SocketTimeout)), "Keyboard interrupt");
  }

  /** Text without the first character of `sub` does not contain `sub`. */
  lemma {:induction false} MissingFirstCharNotContained(s: string, sub: string)
    requires sub != [] && sub[0] !in s
    ensures !Contains(s, sub)
    decreases |s|
  {
    if s != [] {
      assert s[0] != sub[0];
      MissingFirstCharNotContained(s[1..], sub);
    }
  }

  /** Neovim's error for an interrupt is recognised by its text. */
  lemma NvimInterruptIsCancellation(t: string)
    requires Contains(t, "Keyboard interrupt")
    ensures HandleErrorVimAi(HostError(t)) == Report(CancelledMessage)
    ensures HandleErrorUtils(HostError(t)) == Report(CancelledMessage)
  {
  }
}
