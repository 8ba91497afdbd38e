/** The sign-up form's submit handler (src/app/auth/signup/page.tsx):
    the order of its two password checks and what a passing form does. */
module Signup {
  import opened Common

  datatype Form = Form(username: string, email: string, password: string, confirmPassword: string)

  /** The page state the handler changes. */
  datatype PageState = PageState(error: string, isLoading: bool)

  /** The handler's settled outcome: the new state and where the router is sent, if anywhere. */
  datatype Submitted = Submitted(state: PageState, redirect: Option<string>)

  const MismatchError: string := "パスワードが一致しません"
  const LengthError: string := "パスワードは6文字以上で入力してください"
  const MinPasswordLength: int := 6
  const RegisteredRoute: string := "/auth/signin?registered=true"

  /** The length check counts UTF-16 code units, as JavaScript's `length` does. */
  predicate TooShort(password: string) {
    Utf16Length(password) < MinPasswordLength
  }

  /** `handleSubmit`: clears the previous error, then reports a mismatch before
      a short password; a form passing both checks sets the loading flag and
      is sent to the sign-in page. A rejected form leaves the loading flag alone. */
  function HandleSubmit(form: Form, s: PageState): (r: Submitted)
    ensures r.state.error == MismatchError <==> form.password != form.confirmPassword
    ensures form.password == form.confirmPassword && TooShort(form.password) ==>
              r.state.error == LengthError
    ensures r.state.error == "" <==> r.redirect.Some?
    ensures r.redirect.Some? <==> form.password == form.confirmPassword && !TooShort(form.password)
    ensures r.redirect.Some? ==> r.redirect.value == RegisteredRoute && r.state.isLoading
    ensures r.redirect.None? ==> r.state.isLoading == s.isLoading
  {
    var cleared := s.(error := "");
    if form.password != form.confirmPassword then
      Submitted(cleared.(error := MismatchError), None)
    else if TooShort(form.password) then
      Submitted(cleared.(error := LengthError), None)
    else
      Submitted(cleared.(isLoading := true), Some(RegisteredRoute))
  }

  /** The error shown after a submit depends only on the form, never on the previous error. */
  lemma PreviousErrorIsCleared(form: Form, s: PageState, previous: string)
    ensures HandleSubmit(form, s.(error := previous)).state == HandleSubmit(form, s).state
  {
  }

  /** A short pair of different passwords is reported as a mismatch. */
  lemma MismatchReportedFirst(form: Form, s: PageState)
    requires form.password != form.confirmPassword && TooShort(form.password)
    ensures HandleSubmit(form, s).state.error == MismatchError
  {
  }

  /** Three characters outside the Basic Multilingual Plane are six code units,
      so such a password passes the length check. */
  lemma AstralPasswordIsLongEnough()
    ensures var p := "😀😀😀"; |p| == 3 && !TooShort(p)
  {
    var p := "😀😀😀";
    assert p[1..][1..][1..] == [];
  }
}
