/** The window layer's exception classes: the class-registration and
    window-creation errors, which append an optional Windows error code to their
    message, and the icon-loading warning. */
module Errors {
  import opened Strings
  import opened Wrappers

  /** Which of the two Windows-error exception classes was raised. */
  datatype ErrorClass = RegisterClassError | CreateWindowError

  /** An exception instance: its class, the text `str(e)` shows, and the stored
      `error_code` attribute. */
  datatype WindowsError = WindowsError(cls: ErrorClass, text: string, errorCode: Option<int>)

  /** A warning instance: `str(w)` is its text. */
  datatype LoadIconWarning = LoadIconWarning(text: string)

  const CODE_OPEN: string := " (错误代码: "
  const CODE_CLOSE: string := ")"

  /** Python truthiness of an `Optional[int]`: neither None nor 0. */
  predicate Truthy(code: Option<int>) {
    code.Some? && code.value != 0
  }

  /** `r` is `message`, then " (错误代码: ", then the text `str` writes for
      `code`, then ")". */
  predicate ShowsCode(r: string, message: string, code: int) {
    && |r| > |message| + |CODE_OPEN| + |CODE_CLOSE|
    && r[..|message|] == message
    && r[|message|..|message| + |CODE_OPEN|] == CODE_OPEN
    && r[|r| - 1..] == CODE_CLOSE
    && IsCanonicalDecimal(r[|message| + |CODE_OPEN|..|r| - 1])
    && ParseInt(r[|message| + |CODE_OPEN|..|r| - 1]) == code
  }

  /** The message both error classes pass to their base class: the code is appended
      only when it is truthy. */
  function FormatMessage(message: string, errorCode: Option<int>): (r: string)
    ensures !Truthy(errorCode) ==> r == message
    ensures Truthy(errorCode) ==> ShowsCode(r, message, errorCode.value)
  {
    if Truthy(errorCode) then
      var digits := IntToString(errorCode.value);
      var r := message + CODE_OPEN + digits + CODE_CLOSE;
      assert r[|message| + |CODE_OPEN|..|r| - 1] == digits;
      IntToStringRoundTrip(errorCode.value);
      r
    else
      message
  }

  /** `ShowsCode` leaves no freedom: exactly one text shows a given code after a
      given message, the one the f-string builds. */
  lemma ShowsCodeDeterminesText(r: string, message: string, code: int)
    requires ShowsCode(r, message, code)
    ensures r == message + CODE_OPEN + IntToString(code) + CODE_CLOSE
  {
    var k := |message| + |CODE_OPEN|;
    CanonicalDecimalIsIntToString(r[k..|r| - 1], code);
    assert r == r[..|message|] + r[|message|..k] + r[k..|r| - 1] + r[|r| - 1..];
  }

  /** Constructing either error class; `errorCode` defaults to None. */
  function NewWindowsError(cls: ErrorClass, message: string, errorCode: Option<int> := None): (e: WindowsError)
    ensures e.cls == cls
    ensures e.errorCode == errorCode
    ensures !Truthy(errorCode) ==> e.text == message
    ensures Truthy(errorCode) ==> |e.text| > |message| && e.text[..|message|] == message
  {
    WindowsError(cls, FormatMessage(message, errorCode), errorCode)
  }

  /** Constructing the icon warning (its console echo is not modelled). */
  function NewLoadIconWarning(message: string): (w: LoadIconWarning)
    ensures w.text == message
  {
    LoadIconWarning(message)
  }

  /** Two truthy codes that format to the same text are the same code: the appended
      code can always be read back from the message. */
  lemma FormattedCodeIsRecoverable(message: string, a: int, b: int)
    requires a != 0 && b != 0
    ensures FormatMessage(message, Some(a)) == FormatMessage(message, Some(b)) ==> a == b
  {
  }

  /** The two error classes apply one and the same formatting rule, and an omitted
      code behaves exactly like an explicit None or 0. */
  lemma SharedFormattingRule(message: string, errorCode: Option<int>)
    ensures NewWindowsError(RegisterClassError, message, errorCode).text
         == NewWindowsError(CreateWindowError, message, errorCode).text
    ensures NewWindowsError(RegisterClassError, message).text == message
    ensures NewWindowsError(CreateWindowError, message, Some(0)).text == message
    ensures NewWindowsError(RegisterClassError, message).errorCode.None?
  {
  }
}
