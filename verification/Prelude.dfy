/** What the other modules share: options, white space, and imported chat messages. */
module Prelude {
  datatype Option<T> = None | Some(value: T)

  /** White space as the original's character test defines it. */
  predicate IsSpace(c: char) {
    var u := c as int;
    || 9 <= u <= 13 || 28 <= u <= 32 || u == 133 || u == 160 || u == 5760
    || 8192 <= u <= 8202 || u == 8232 || u == 8233 || u == 8239 || u == 8287 || u == 12288
  }

  function TrimLeft(s: string): string {
    if s != "" && IsSpace(s[0]) then TrimLeft(s[1..]) else s
  }

  function TrimRight(s: string): string {
    if s != "" && IsSpace(s[|s| - 1]) then TrimRight(s[..|s| - 1]) else s
  }

  /** A text without the white space around it. */
  function Strip(s: string): string {
    TrimRight(TrimLeft(s))
  }

  datatype Message = Message(
    messageId: string,
    timestamp: real,
    senderId: string,
    content: string,
    replyToId: Option<string>,
    isBot: bool,
    isLowSignal: bool)

  /** Total content length of some messages. */
  function Chars(messages: seq<Message>): nat {
    if messages == [] then 0 else Chars(messages[..|messages| - 1]) + |messages[|messages| - 1].content|
  }

  function Ids(messages: seq<Message>): (r: seq<string>)
    ensures |r| == |messages| && forall k :: 0 <= k < |messages| ==> r[k] == messages[k].messageId
  {
    seq(|messages|, k requires 0 <= k < |messages| => messages[k].messageId)
  }

  predicate OccursAt(text: string, part: string, k: nat) {
    k + |part| <= |text| && text[k..k + |part|] == part
  }

  predicate Contains(text: string, part: string) {
    exists k :: 0 <= k <= |text| && OccursAt(text, part, k)
  }
}
