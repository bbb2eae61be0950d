/**
 * The blog detail page: the list of other posts shown beside the current
 * one, and the comment form with its math captcha. React state updates are
 * modelled as functions from the page state before an event to the state
 * after it; the random captcha operands and the server's reply are
 * parameters.
 */
module BlogPage {
  import opened Common
  import opened JsString

  datatype Blog = Blog(id: int, title: string, content: string)

  datatype Comment = Comment(id: int, name: string, comment: string)

  /** `allBlogs.filter(b => b.id !== parseInt(id))`: a `NaN` id differs from every blog id. */
  function OtherBlogs(all: seq<Blog>, routeId: string): (r: seq<Blog>)
  {
    Filter(all, (b: Blog) => ParseInt(routeId) != Some(b.id))
  }

  /**
   * The other posts are the listed ones whose id is not the route's, in
   * their listed order; a route id that is not a number keeps them all.
   */
  lemma OtherBlogsExact(all: seq<Blog>, routeId: string)
    ensures forall b :: b in OtherBlogs(all, routeId) <==> b in all && ParseInt(routeId) != Some(b.id)
    ensures Subsequence(OtherBlogs(all, routeId), all)
    ensures ParseInt(routeId).None? ==> OtherBlogs(all, routeId) == all
  {
    var p := (b: Blog) => ParseInt(routeId) != Some(b.id);
    FilterMembers(all, p);
    FilterIsSubsequence(all, p);
    if ParseInt(routeId).None? {
      FilterAll(all, p);
    }
  }

  /** Filtering by a predicate every element satisfies keeps the whole sequence. */
  lemma {:induction false} FilterAll<T(!new)>(s: seq<T>, p: T -> bool)
    requires forall i :: 0 <= i < |s| ==> p(s[i])
    ensures Filter(s, p) == s
  {
    if s != [] {
      var init, last := s[..|s| - 1], s[|s| - 1];
      assert forall i :: 0 <= i < |init| ==> init[i] == s[i];
      FilterAll(init, p);
      assert p(last);
      assert Filter(s, p) == Filter(init, p) + [last];
      assert s == init + [last];
    }
  }

  // ------------------------------------------------------------- captcha

  /** A pair of captcha operands, each `Math.floor(Math.random() * 10)`. */
  predicate Operand(n: int)
  {
    0 <= n < 10
  }

  datatype Captcha = Captcha(question: string, answer: string)

  /** `generateCaptcha()`: the question `"a + b = ?"` and the answer `(a + b).toString()`. */
  function GenerateCaptcha(num1: nat, num2: nat): (c: Captcha)
    requires Operand(num1) && Operand(num2)
    ensures 1 <= |c.answer| <= 2
    ensures ParseInt(c.answer) == Some(num1 + num2)
    ensures c.question == DecimalString(num1) + " + " + DecimalString(num2) + " = ?"
  {
    ParseDecimalString(num1 + num2);
    ShortSum(num1 + num2);
    Captcha(DecimalString(num1) + " + " + DecimalString(num2) + " = ?", DecimalString(num1 + num2))
  }

  /** A sum of two operands is below 100, so it has one or two digits. */
  lemma ShortSum(n: nat)
    requires n < 100
    ensures 1 <= |DecimalString(n)| <= 2
  {
    if n >= 10 {
      var q := n / 10;
      assert q < 10;
      assert DecimalString(n) == DecimalString(q) + [DigitChar(n % 10)];
    }
  }

  /**
   * The typed answer is compared as a string, so only the exact decimal
   * digits of the sum pass: a padded or zero-prefixed number is refused.
   */
  lemma CaptchaExact(num1: nat, num2: nat)
    requires Operand(num1) && Operand(num2)
    ensures ['0'] + DecimalString(num1 + num2) != GenerateCaptcha(num1, num2).answer
    ensures [' '] + DecimalString(num1 + num2) != GenerateCaptcha(num1, num2).answer
  {
    var d := DecimalString(num1 + num2);
    var z := ['0'] + d;
    var sp := [' '] + d;
    assert z[0] == '0' && |z| > 1;
    assert sp[0] == ' ' && !IsDigit(' ', 10);
  }

  // ------------------------------------------------------------- comment form

  datatype CommentForm = CommentForm(name: string, comment: string, captcha: string)

  const EmptyForm := CommentForm("", "", "")

  datatype Field = NameField | CommentField | CaptchaField

  const RequiredMessage := "Name and comment are required."
  const CaptchaMessage := "Incorrect captcha answer. Please try again."
  const SubmitFailedMessage := "Failed to submit comment. Please try again."

  datatype CommentState = CommentState(
    comments: seq<Comment>,
    form: CommentForm,
    captcha: Captcha,
    error: Option<string>,
    success: bool)

  /** `handleCommentChange`: one field takes the typed value and both messages are cleared. */
  function ChangeField(st: CommentState, field: Field, value: string): (r: CommentState)
    ensures r.comments == st.comments && r.captcha == st.captcha
    ensures r.error.None? && !r.success
    ensures r.form.name == (if field == NameField then value else st.form.name)
    ensures r.form.comment == (if field == CommentField then value else st.form.comment)
    ensures r.form.captcha == (if field == CaptchaField then value else st.form.captcha)
  {
    var f := match field
      case NameField => st.form.(name := value)
      case CommentField => st.form.(comment := value)
      case CaptchaField => st.form.(captcha := value);
    st.(form := f, error := None, success := false)
  }

  /** The form passes `handleCommentSubmit`'s own checks: a name, a comment and the captcha answer. */
  predicate Acceptable(st: CommentState)
  {
    Trim(st.form.name) != [] && Trim(st.form.comment) != [] && st.form.captcha == st.captcha.answer
  }

  /**
   * `handleCommentSubmit`. `routeId` is the `:id` route parameter (sent
   * only when present and non-empty), `created` the server's reply to
   * `createComment` (`None` when it fails), and `num1`, `num2` the operands
   * the next `generateCaptcha` draws.
   */
  function SubmitComment(st: CommentState, routeId: Option<string>, created: Option<Comment>, num1: nat, num2: nat): (r: CommentState)
    requires Operand(num1) && Operand(num2)
    // the comment list changes exactly when the form is acceptable, the route
    // has an id and the server created the comment, which is then prepended
    ensures var accepted := Acceptable(st) && routeId.Some? && routeId.value != [] && created.Some?;
      && (accepted ==> r.comments == [created.value] + st.comments && r.form == EmptyForm && r.success)
      && (!accepted ==> r.comments == st.comments && r.success == st.success)
  {
    if Trim(st.form.name) == [] || Trim(st.form.comment) == [] then
      st.(error := Some(RequiredMessage))
    else if st.form.captcha != st.captcha.answer then
      st.(error := Some(CaptchaMessage), captcha := GenerateCaptcha(num1, num2), form := st.form.(captcha := ""))
    else
      var sent :=
        if routeId.None? || routeId.value == [] then st
        else match created
          case Some(c) => st.(comments := [c] + st.comments, form := EmptyForm, success := true)
          case None => st.(error := Some(SubmitFailedMessage));
      sent.(captcha := GenerateCaptcha(num1, num2))
  }

  /**
   * A blank name or comment (empty or only white space) is refused with
   * the required-fields message and changes nothing else, not even the captcha.
   */
  lemma SubmitBlank(st: CommentState, routeId: Option<string>, created: Option<Comment>, num1: nat, num2: nat)
    requires Operand(num1) && Operand(num2)
    requires AllSpace(st.form.name) || AllSpace(st.form.comment)
    ensures SubmitComment(st, routeId, created, num1, num2) == st.(error := Some(RequiredMessage))
  {
    TrimBlank(st.form.name);
    TrimBlank(st.form.comment);
  }

  /**
   * A wrong captcha answer is refused: the comments stay, a fresh captcha
   * is drawn and the answer field is cleared.
   */
  lemma SubmitWrongCaptcha(st: CommentState, routeId: Option<string>, created: Option<Comment>, num1: nat, num2: nat)
    requires Operand(num1) && Operand(num2)
    requires !AllSpace(st.form.name) && !AllSpace(st.form.comment)
    requires st.form.captcha != st.captcha.answer
    ensures var r := SubmitComment(st, routeId, created, num1, num2);
      && r.comments == st.comments && r.error == Some(CaptchaMessage)
      && r.captcha == GenerateCaptcha(num1, num2)
      && r.form == st.form.(captcha := "")
  {
    TrimBlank(st.form.name);
    TrimBlank(st.form.comment);
  }

  /**
   * A submission that passes the form checks for a route with an id, but
   * that the server refuses, keeps the comments and the form, shows the
   * submit-failure message and still draws a new captcha.
   */
  lemma SubmitServerFails(st: CommentState, routeId: Option<string>, num1: nat, num2: nat)
    requires Operand(num1) && Operand(num2)
    requires !AllSpace(st.form.name) && !AllSpace(st.form.comment)
    requires st.form.captcha == st.captcha.answer
    requires routeId.Some? && routeId.value != []
    ensures var r := SubmitComment(st, routeId, None, num1, num2);
      && r.comments == st.comments && r.form == st.form && r.success == st.success
      && r.error == Some(SubmitFailedMessage)
      && r.captcha == GenerateCaptcha(num1, num2)
  {
    TrimBlank(st.form.name);
    TrimBlank(st.form.comment);
  }

  /** A submission that passes the form checks always draws a new captcha, whatever the server replies. */
  lemma SubmitRenewsCaptcha(st: CommentState, routeId: Option<string>, created: Option<Comment>, num1: nat, num2: nat)
    requires Operand(num1) && Operand(num2)
    requires !AllSpace(st.form.name) && !AllSpace(st.form.comment)
    ensures SubmitComment(st, routeId, created, num1, num2).captcha == GenerateCaptcha(num1, num2)
  {
    TrimBlank(st.form.name);
    TrimBlank(st.form.comment);
  }
}
