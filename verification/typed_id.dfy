/**
 * The id the admin types when adding a source or setting the target
 * (`config_ui.py`, modes `source_await_type` and `target_await_type`). The bot
 * first asks Telegram to resolve the stripped text; when that fails, text that
 * looks numeric is stored as a number and anything else as the raw text.
 */
module TypedId {
  import opened Wrappers
  import opened Text
  import opened Documents

  /** The fallback's test, `txt.lstrip('-').isdigit()`. */
  predicate LooksNumeric(txt: string) {
    IsDigits(LStripChar(txt, '-'))
  }

  /** Two or more leading minus signs. */
  predicate DoubleDash(txt: string) {
    |txt| >= 2 && txt[0] == '-' && txt[1] == '-'
  }

  /** Text that passes the test converts exactly when at most one minus sign leads it. */
  lemma ParseOfNumericLooking(txt: string)
    requires LooksNumeric(txt)
    ensures ParseInt(txt).Some? <==> !DoubleDash(txt)
  {
    var t := LStripChar(txt, '-');
    var k := |txt| - |t|;
    if k == 0 {
      assert txt == t;
    } else if k == 1 {
      assert txt[1..] == t;
    } else {
      assert !IsDigit(txt[0]);
      assert !IsDigit(txt[1..][0]);
    }
  }

  /**
   * The fallback as written: `int(txt) if txt.lstrip('-').isdigit() else txt`.
   * `int` rejects more than one leading minus sign, which the test lets
   * through, so such text raises `ValueError` out of the handler.
   */
  function TypedIdAsWritten(txt: string): (r: Result<ChannelRef, PyError>)
    ensures r.Failure? <==> LooksNumeric(txt) && DoubleDash(txt)
    ensures r.Failure? ==> r.error == ValueError
    ensures r == Success(Named(txt)) <==> !LooksNumeric(txt)
    ensures r.Success? && r.value.Numeric? ==> ParseInt(txt) == Some(r.value.id)
  {
    if LooksNumeric(txt) then
      ParseOfNumericLooking(txt);
      match ParseInt(txt)
      case Some(n) => Success(Numeric(n))
      case None => Failure(ValueError)
    else Success(Named(txt))
  }

  /** Text such as `"--5"`, two minus signs and digits, passes the test and then makes `int` raise. */
  lemma DoubleDashRaises(digits: string)
    requires IsDigits(digits)
    ensures TypedIdAsWritten("--" + digits) == Failure(ValueError)
  {
    var s := "--" + digits;
    assert s[1..] == "-" + digits && s[1..][1..] == digits;
    assert digits[0] != '-' by {
      assert IsDigit(digits[0]);
    }
    assert LStripChar(s, '-') == digits;
    assert DoubleDash(s);
  }

  /**
   * The fallback as evidently intended: a number when the text is an integer
   * literal with at most one leading minus sign, the raw text otherwise; it
   * never raises, and wherever the version as written does not raise it gives
   * the same id.
   */
  function TypedId(txt: string): (c: ChannelRef)
    ensures c.Numeric? <==> LooksNumeric(txt) && !DoubleDash(txt)
    ensures c.Numeric? ==> ParseInt(txt) == Some(c.id)
    ensures c.Named? ==> c.text == txt
    ensures TypedIdAsWritten(txt).Success? ==> TypedIdAsWritten(txt).value == c
  {
    if LooksNumeric(txt) && !DoubleDash(txt) then
      ParseOfNumericLooking(txt);
      Numeric(ParseInt(txt).value)
    else Named(txt)
  }

  /** The digits of a decimal rendering, after its minus sign if any. */
  lemma RenderedDigits(i: int)
    ensures LStripChar(IntToString(i), '-') == NatToString(if i < 0 then -i else i)
  {
    var n := NatToString(if i < 0 then -i else i);
    assert n[0] != '-' by {
      assert IsDigit(n[0]);
    }
    if i < 0 {
      assert IntToString(i)[1..] == n;
    }
  }

  lemma RenderedNotDoubleDash(i: int)
    ensures !DoubleDash(IntToString(i))
  {
    var s := IntToString(i);
    if |s| >= 2 {
      assert IsDigit(s[1]);
    }
  }

  /** Every id the bot prints back is read as that number again. */
  lemma TypedIdRoundTrip(i: int)
    ensures TypedId(IntToString(i)) == Numeric(i)
    ensures TypedIdAsWritten(IntToString(i)) == Success(Numeric(i))
  {
    IntRoundTrip(i);
    RenderedNotDoubleDash(i);
    RenderedDigits(i);
  }

  /** A chat as Telegram resolves it; empty title or username stands for a missing one. */
  datatype Chat = Chat(id: int, title: string, username: string)

  /** `ch.title or ch.username or str(txt)`. */
  function ChatTitle(ch: Chat, txt: string): (title: string)
    ensures ch.title != "" ==> title == ch.title
    ensures ch.title == "" && ch.username != "" ==> title == ch.username
    ensures ch.title == "" && ch.username == "" ==> title == txt
    ensures title == "" <==> ch.title == "" && ch.username == "" && txt == ""
  {
    if ch.title != "" then ch.title else if ch.username != "" then ch.username else txt
  }

  /**
   * Channel and title stored for typed text as written; `lookup` is the outcome
   * of `get_chat` (None when it raised). The title falls back to the text itself.
   */
  function ResolveTypedAsWritten(txt: string, lookup: Option<Chat>): (r: Result<(ChannelRef, string), PyError>)
    ensures lookup.Some? ==> r == Success((Numeric(lookup.value.id), ChatTitle(lookup.value, txt)))
    ensures lookup.None? ==> (r.Failure? <==> LooksNumeric(txt) && DoubleDash(txt))
    ensures lookup.None? && r.Success? ==> r.value.1 == txt
    ensures lookup.None? && r.Success? ==> TypedIdAsWritten(txt).Success? && r.value.0 == TypedIdAsWritten(txt).value
  {
    match lookup
    case Some(ch) => Success((Numeric(ch.id), ChatTitle(ch, txt)))
    case None =>
      match TypedIdAsWritten(txt)
      case Success(c) => Success((c, txt))
      case Failure(e) => Failure(e)
  }

  /** The corrected resolution: never raises, and keeps every answer of the version as written. */
  function ResolveTyped(txt: string, lookup: Option<Chat>): (r: (ChannelRef, string))
    ensures ResolveTypedAsWritten(txt, lookup).Success? ==> r == ResolveTypedAsWritten(txt, lookup).value
    ensures lookup.None? ==> r.1 == txt && (r.0.Named? <==> !LooksNumeric(txt) || DoubleDash(txt))
    ensures lookup.None? ==> r.0 == TypedId(txt)
  {
    match lookup
    case Some(ch) => (Numeric(ch.id), ChatTitle(ch, txt))
    case None => (TypedId(txt), txt)
  }
}
