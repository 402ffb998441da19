/**
 * The ledger key under which a relayed message is recorded: the source chat
 * id and the message id, in decimal, joined by a colon (`f'{chat}:{msg}'`).
 */
module DedupKey {
  import opened Wrappers
  import opened Text

  function Key(chatId: int, messageId: int): (k: string)
    ensures Count(k, ':') == 1
  {
    var a := IntToString(chatId);
    var b := IntToString(messageId);
    NoColon(a);
    NoColon(b);
    SplitJoin([a, b], ':');
    assert Join([a, b], ':') == a + [':'] + b;
    a + [':'] + b
  }

  /** Reads a key back into its chat id and message id. */
  function ParseKey(k: string): Option<(int, int)>
  {
    var parts := Split(k, ':');
    if |parts| != 2 then None
    else
      match (ParseInt(parts[0]), ParseInt(parts[1]))
      case (Some(c), Some(m)) => Some((c, m))
      case _ => None
  }

  lemma NoColon(s: string)
    requires forall k :: 0 <= k < |s| ==> IsDigit(s[k]) || (k == 0 && s[k] == '-')
    ensures ':' !in s
  {
  }

  /** The key determines the message: parsing a key recovers both ids. */
  lemma KeyRoundTrip(chatId: int, messageId: int)
    ensures ParseKey(Key(chatId, messageId)) == Some((chatId, messageId))
  {
    var a := IntToString(chatId);
    var b := IntToString(messageId);
    NoColon(a);
    NoColon(b);
    SplitJoin([a, b], ':');
    assert Join([a, b], ':') == a + [':'] + b;
    IntRoundTrip(chatId);
    IntRoundTrip(messageId);
  }

  /** Two messages share a key only when they are the same message. */
  lemma KeyInjective(c1: int, m1: int, c2: int, m2: int)
    requires Key(c1, m1) == Key(c2, m2)
    ensures c1 == c2 && m1 == m2
  {
    KeyRoundTrip(c1, m1);
    KeyRoundTrip(c2, m2);
  }
}
