/**
 * The documents the admin panel writes and the forward worker reads: the
 * global configuration (sources and target) and the stored sessions.
 */
module Documents {
  import opened Wrappers

  /**
   * A channel id as stored: a number when the channel was resolved or typed as
   * digits, otherwise the raw text the admin typed (`@name`).
   */
  datatype ChannelRef = Numeric(id: int) | Named(text: string)

  datatype Source = Source(channel: ChannelRef, title: string, addedBy: int)

  /** The `global` configuration document; a missing document reads as no sources and no target. */
  datatype Config = Config(sources: seq<Source>, target: Option<ChannelRef>)

  datatype SessionKind = Bot | User

  /** The `type` field as stored: `bot` or `user`. */
  function KindWord(k: SessionKind): (w: string)
    ensures |w| > 0
  {
    match k
    case Bot => "bot"
    case User => "user"
  }

  /** A stored session; `name` is the empty string when the document has none. */
  datatype SessionDoc = SessionDoc(id: string, name: string, kind: SessionKind)

  /** The channel ids of the configured sources, in order. */
  function SourceChannels(sources: seq<Source>): (ids: seq<ChannelRef>)
    ensures |ids| == |sources|
    ensures forall i :: 0 <= i < |sources| ==> ids[i] == sources[i].channel
  {
    seq(|sources|, i requires 0 <= i < |sources| => sources[i].channel)
  }
}
