/**
 * The admin's reply to "Send: `bot <TOKEN>` OR `user <SESSION_STRING>`": the
 * stripped text is cut at its first whitespace run; the first word, lowered,
 * names the kind and the rest is the credential.
 */
module SessionReply {
  import opened Wrappers
  import opened Text
  import opened Documents

  datatype ReplyError = InvalidFormat | BadType

  /** The first word of a stripped text. */
  function FirstWord(t: string): string {
    t[..FirstSpace(t)]
  }

  /** `strip()` leaves no whitespace at either end. */
  lemma StripEnds(s: string)
    ensures var t := Strip(s); |t| == 0 || (!IsSpace(t[0]) && !IsSpace(t[|t| - 1]))
  {
    var l := LStrip(s);
    var t := RStrip(l);
    if |t| > 0 {
      assert t[0] == l[0];
    }
  }

  lemma LStripKeeps(s: string)
    requires |s| > 0 && !IsSpace(s[0])
    ensures LStrip(s) == s
  {
  }

  lemma RStripKeeps(s: string)
    requires |s| > 0 && !IsSpace(s[|s| - 1])
    ensures RStrip(s) == s
  {
  }

  lemma FirstSpaceBound(t: string)
    ensures FirstSpace(t) == |t| <==> NoSpace(t)
  {
    if FirstSpace(t) == |t| {
      assert t[..FirstSpace(t)] == t;
    }
  }

  /** `lstrip()` of a tail of `t` is itself a tail of `t`. */
  lemma LStripOfTail(t: string, i: nat)
    requires i <= |t|
    ensures var v := LStrip(t[i..]); |v| <= |t| - i && v == t[|t| - |v|..]
  {
    TailOfTail(t, i, |LStrip(t[i..])|);
  }

  /** The last `m` characters of a tail of `t` are the last `m` characters of `t`. */
  lemma TailOfTail(t: string, i: nat, m: nat)
    requires i <= |t| && m <= |t| - i
    ensures t[i..][|t[i..]| - m..] == t[|t| - m..]
  {
  }

  /** Stripping what follows a position keeps a non-blank last character. */
  lemma TailNotBlank(t: string, i: nat)
    requires i < |t| && !IsSpace(t[|t| - 1])
    ensures |LStrip(t[i..])| > 0 && LStrip(t[i..])[|LStrip(t[i..])| - 1] == t[|t| - 1]
  {
    var rest := t[i..];
    assert rest[|rest| - 1] == t[|t| - 1];
    LStripKeepsLast(rest);
  }

  lemma StrippedTailEnd(t: string, i: nat)
    requires i < |t| && !IsSpace(t[|t| - 1])
    ensures var v := LStrip(t[i..]); 0 < |v| <= |t| - i && v == t[|t| - |v|..] && !IsSpace(v[|v| - 1])
  {
    TailNotBlank(t, i);
    LStripOfTail(t, i);
  }

  /** What remains of a tail after `lstrip()` is a suffix that keeps the text's last character. */
  lemma StrippedTail(t: string, i: nat)
    requires i < |t| && !IsSpace(t[|t| - 1])
    ensures var v := LStrip(t[i..]);
            && 0 < |v| <= |t| - i && v == t[|t| - |v|..]
            && !IsSpace(v[0]) && !IsSpace(v[|v| - 1])
  {
    StrippedTailEnd(t, i);
    TailNotBlank(t, i);
  }

  /** A text without whitespace at either end is its own `strip()`. */
  lemma StripKeeps(v: string)
    requires |v| > 0 && !IsSpace(v[0]) && !IsSpace(v[|v| - 1])
    ensures Strip(v) == v
  {
    LStripKeeps(v);
    RStripKeeps(v);
  }

  /** A text without whitespace at its ends splits in two exactly when it contains whitespace. */
  lemma SplitTrimmed(t: string)
    requires |t| == 0 || (!IsSpace(t[0]) && !IsSpace(t[|t| - 1]))
    ensures |SplitWordOnce(t)| == 2 <==> !NoSpace(t)
    ensures |SplitWordOnce(t)| == 2 ==> SplitWordOnce(t) == [FirstWord(t), Remainder(t)]
  {
    if |t| > 0 {
      LStripKeeps(t);
      FirstSpaceBound(t);
      if !NoSpace(t) {
        TailNotBlank(t, FirstSpace(t));
      }
    }
  }

  /** The remainder of a trimmed text after its first whitespace run, already stripped. */
  function Remainder(t: string): string
    requires FirstSpace(t) <= |t|
  {
    LStrip(t[FirstSpace(t)..])
  }

  lemma RemainderBounds(t: string)
    requires |t| > 0 && !IsSpace(t[0]) && !IsSpace(t[|t| - 1]) && !NoSpace(t)
    ensures 0 < FirstSpace(t) < |t|
  {
    FirstSpaceBound(t);
  }

  /** The remainder of a trimmed text that contains whitespace is a proper suffix with non-blank ends. */
  lemma TrimmedValue(t: string)
    requires |t| > 0 && !IsSpace(t[0]) && !IsSpace(t[|t| - 1]) && !NoSpace(t)
    ensures var v := Remainder(t);
            0 < |v| < |t| && v == t[|t| - |v|..] && !IsSpace(v[0]) && !IsSpace(v[|v| - 1])
  {
    RemainderBounds(t);
    var i := FirstSpace(t);
    var v := Remainder(t);
    assert v == LStrip(t[i..]);
    StrippedTail(t, i);
  }

  /** ... and stripping it again changes nothing. */
  lemma RemainderStripped(t: string)
    requires |t| > 0 && !IsSpace(t[0]) && !IsSpace(t[|t| - 1]) && !NoSpace(t)
    ensures Strip(Remainder(t)) == Remainder(t)
  {
    TrimmedValue(t);
    StripKeeps(Remainder(t));
  }

  /** The kind check applied to the parts of the stripped reply. */
  function Classify(parts: seq<string>): Result<(SessionKind, string), ReplyError> {
    if |parts| < 2 then Failure(InvalidFormat)
    else
      var stype := Lower(parts[0]);
      var value := Strip(parts[1]);
      if stype == KindWord(Bot) then Success((Bot, value))
      else if stype == KindWord(User) then Success((User, value))
      else Failure(BadType)
  }

  /** A trimmed text splits into its first word and its remainder, or into fewer parts when it has no whitespace. */
  lemma PartsOfTrimmed(text: string)
    ensures var t := Strip(text);
            var parts := SplitWordOnce(t);
            && (|parts| == 2 <==> !NoSpace(t))
            && (|parts| == 2 ==> parts == [FirstWord(t), Remainder(t)])
  {
    StripEnds(text);
    SplitTrimmed(Strip(text));
  }

  /** The kind check on two parts whose second is already stripped. */
  lemma ClassifyPair(w: string, v: string)
    requires Strip(v) == v
    ensures var r := Classify([w, v]);
            && (r == Failure(BadType) <==> Lower(w) != KindWord(Bot) && Lower(w) != KindWord(User))
            && (r.Success? ==> r.value.1 == v && Lower(w) == KindWord(r.value.0))
            && r != Failure(InvalidFormat)
  {
  }

  lemma ParseFormat(text: string)
    ensures Classify(SplitWordOnce(Strip(text))) == Failure(InvalidFormat) <==> NoSpace(Strip(text))
  {
    PartsOfTrimmed(text);
    var t := Strip(text);
    if !NoSpace(t) {
      StripEnds(text);
      RemainderStripped(t);
      ClassifyPair(FirstWord(t), Remainder(t));
    }
  }

  lemma ParseKind(text: string)
    requires !NoSpace(Strip(text))
    ensures var t := Strip(text);
            var r := Classify(SplitWordOnce(t));
            && (r == Failure(BadType) <==> Lower(FirstWord(t)) != KindWord(Bot) && Lower(FirstWord(t)) != KindWord(User))
            && (r.Success? ==> r.value.1 == Remainder(t) && Lower(FirstWord(t)) == KindWord(r.value.0))
  {
    PartsOfTrimmed(text);
    var t := Strip(text);
    StripEnds(text);
    RemainderStripped(t);
    ClassifyPair(FirstWord(t), Remainder(t));
  }

  lemma ParseValue(text: string)
    requires !NoSpace(Strip(text))
    ensures var t := Strip(text);
            var v := Remainder(t);
            0 < |v| < |t| && v == t[|t| - |v|..] && !IsSpace(v[0]) && !IsSpace(v[|v| - 1])
  {
    StripEnds(text);
    TrimmedValue(Strip(text));
  }

  /** The credential of a trimmed text: a proper, non-empty suffix with no whitespace at either end. */
  ghost predicate CredentialOf(v: string, t: string) {
    0 < |v| < |t| && v == t[|t| - |v|..] && !IsSpace(v[0]) && !IsSpace(v[|v| - 1])
  }

  /** The kind word of a trimmed text: its first word, lowered. */
  function KindField(t: string): string {
    Lower(FirstWord(t))
  }

  lemma ParseSuccess(text: string)
    ensures var t := Strip(text);
            var r := Classify(SplitWordOnce(t));
            r.Success? ==> KindField(t) == KindWord(r.value.0) && CredentialOf(r.value.1, t)
  {
    ParseFormat(text);
    var t := Strip(text);
    if !NoSpace(t) {
      ParseKind(text);
      ParseValue(text);
    }
  }

  lemma ParseFacts(text: string)
    ensures var t := Strip(text);
            var r := Classify(SplitWordOnce(t));
            && (r == Failure(InvalidFormat) <==> NoSpace(t))
            && (r == Failure(BadType) <==> !NoSpace(t) && KindField(t) != KindWord(Bot) && KindField(t) != KindWord(User))
            && (r.Success? ==> KindField(t) == KindWord(r.value.0) && CredentialOf(r.value.1, t))
  {
    ParseFormat(text);
    ParseSuccess(text);
    if !NoSpace(Strip(text)) {
      ParseKind(text);
    }
  }

  /**
   * Parsing of the session reply (`text.strip().split(None, 1)`, then the kind
   * check). Fewer than two parts is an invalid format; a first word other than
   * `bot` or `user` in any letter case is a bad type; otherwise the kind is the
   * one the first word names and the credential is the stripped remainder.
   */
  function ParseSessionReply(text: string): (r: Result<(SessionKind, string), ReplyError>)
    ensures r == Failure(InvalidFormat) <==> NoSpace(Strip(text))
    ensures r == Failure(BadType) <==>
              !NoSpace(Strip(text)) && KindField(Strip(text)) != KindWord(Bot) && KindField(Strip(text)) != KindWord(User)
    ensures r.Success? ==> KindField(Strip(text)) == KindWord(r.value.0) && CredentialOf(r.value.1, Strip(text))
  {
    ParseFacts(text);
    Classify(SplitWordOnce(Strip(text)))
  }

  lemma {:induction false} LStripSpaces(pre: string, x: string)
    requires AllSpace(pre) && |x| > 0 && !IsSpace(x[0])
    ensures LStrip(pre + x) == x
    decreases |pre|
  {
    if |pre| > 0 {
      assert (pre + x)[1..] == pre[1..] + x;
      LStripSpaces(pre[1..], x);
    }
  }

  lemma {:induction false} RStripSpaces(y: string, post: string)
    requires AllSpace(post) && |y| > 0 && !IsSpace(y[|y| - 1])
    ensures RStrip(y + post) == y
    decreases |post|
  {
    if |post| > 0 {
      assert (y + post)[..|y + post| - 1] == y + post[..|post| - 1];
      RStripSpaces(y, post[..|post| - 1]);
    } else {
      assert y + post == y;
    }
  }

  lemma {:induction false} FirstSpaceAfterWord(w: string, z: string)
    requires NoSpace(w) && |z| > 0 && IsSpace(z[0])
    ensures FirstSpace(w + z) == |w|
    decreases |w|
  {
    if |w| > 0 {
      assert (w + z)[1..] == w[1..] + z;
      FirstSpaceAfterWord(w[1..], z);
    } else {
      assert w + z == z;
    }
  }

  /** Stripping a reply of the documented shape leaves the word, the separator and the credential. */
  lemma StripOfShape(pre: string, w: string, sep: string, v: string, post: string)
    requires AllSpace(pre) && AllSpace(post)
    requires |w| > 0 && !IsSpace(w[0])
    requires |v| > 0 && !IsSpace(v[|v| - 1])
    ensures Strip(pre + w + sep + v + post) == w + sep + v
  {
    var y := w + sep + v;
    assert pre + w + sep + v + post == pre + (y + post);
    LStripSpaces(pre, y + post);
    RStripSpaces(y, post);
  }

  /** The word and the credential are the two parts of `split(None, 1)`. */
  lemma SplitOfShape(w: string, sep: string, v: string)
    requires |sep| > 0 && AllSpace(sep)
    requires |w| > 0 && NoSpace(w)
    requires |v| > 0 && !IsSpace(v[0])
    ensures SplitWordOnce(w + sep + v) == [w, v]
  {
    var y := w + sep + v;
    LStripKeeps(y);
    assert w + (sep + v) == y;
    FirstSpaceAfterWord(w, sep + v);
    assert y[|w|..] == sep + v;
    assert y[..|w|] == w;
    LStripSpaces(sep, v);
  }

  /**
   * Any reply of the documented shape parses back to its kind and credential:
   * surrounding whitespace, the letter case of the kind word and the width of
   * the separating whitespace do not matter.
   */
  lemma ReplyRoundTrip(pre: string, w: string, sep: string, v: string, post: string, k: SessionKind)
    requires AllSpace(pre) && AllSpace(post) && |sep| > 0 && AllSpace(sep)
    requires |w| > 0 && NoSpace(w) && Lower(w) == KindWord(k)
    requires |v| > 0 && !IsSpace(v[0]) && !IsSpace(v[|v| - 1])
    ensures ParseSessionReply(pre + w + sep + v + post) == Success((k, v))
  {
    StripOfShape(pre, w, sep, v, post);
    SplitOfShape(w, sep, v);
    StripKeeps(v);
    ClassifyPair(w, v);
    assert KindWord(Bot) != KindWord(User);
  }
}
