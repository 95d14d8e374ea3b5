/** The tagged text packets exchanged with the motor controller: a tag
    character, a payload and the tag again, e.g. `C1C` or `M0M`. */
module SerialComms {
  import opened Common
  import opened PyText

  /** The `tag + payload + tag` text the main program builds. */
  function Frame(tag: char, payload: string): (r: string)
    ensures |r| == |payload| + 2 && r[0] == tag && r[|r| - 1] == tag
    ensures r[1..|r| - 1] == payload
  {
    [tag] + payload + [tag]
  }

  /** `parseDataPacket(rawPacket)`: strip the text, then accept it when it
      has at least three characters and begins and ends with the same
      one; the tag is that character and the payload what lies between. */
  function ParseDataPacket(raw: string): (r: Result<(char, string)>)
    ensures r.Ok? <==> |Strip(raw)| >= 3 && Strip(raw)[0] == Strip(raw)[|Strip(raw)| - 1]
    ensures r.Err? ==> r.error == ValueError
    ensures r.Ok? ==> Strip(raw) == Frame(r.value.0, r.value.1)
  {
    ParseStrippedPacket(Strip(raw))
  }

  /** The checks `parseDataPacket` makes once the text is stripped. */
  function ParseStrippedPacket(packet: string): (r: Result<(char, string)>)
    ensures r.Ok? <==> |packet| >= 3 && packet[0] == packet[|packet| - 1]
    ensures r.Err? ==> r.error == ValueError
    ensures r.Ok? ==> packet == Frame(r.value.0, r.value.1)
  {
    if |packet| >= 3 && packet[0] == packet[|packet| - 1] then
      Reframe(packet);
      Ok((packet[0], packet[1..|packet| - 1]))
    else
      Err(ValueError)
  }

  /** A text of two or more characters whose ends match is the frame of its
      first character around its middle. */
  lemma Reframe(packet: string)
    requires |packet| >= 2 && packet[0] == packet[|packet| - 1]
    ensures packet == Frame(packet[0], packet[1..|packet| - 1])
  {
  }

  /** A framed packet with a non-space tag and a non-empty payload parses
      back to its tag and payload, whatever the payload holds (the tag
      included) and whatever whitespace surrounds it. */
  lemma ParseFrame(tag: char, payload: string, pre: string, post: string)
    requires !IsSpace(tag) && |payload| >= 1
    requires AllSpace(pre) && AllSpace(post)
    ensures ParseDataPacket(pre + Frame(tag, payload) + post) == Ok((tag, payload))
  {
    TrimPadded(StripBlanks, pre, Frame(tag, payload), post);
  }

  /** The accepted packets are exactly the frames above: stripping a
      packet and framing its parse again gives the stripped text. */
  lemma FrameOfParse(raw: string)
    requires ParseDataPacket(raw).Ok?
    ensures var (tag, payload) := ParseDataPacket(raw).value;
      !IsSpace(tag) && |payload| >= 1 && Strip(raw) == Frame(tag, payload)
  {
  }

  /** Two characters are too short even when they match: an empty payload
      cannot be sent. */
  lemma EmptyPayloadRejected(tag: char)
    ensures ParseDataPacket(Frame(tag, [])).Err?
  {
  }

  /** Mismatched ends are rejected. */
  lemma MismatchedTagRejected(a: char, payload: string, b: char)
    requires a != b && !IsSpace(a) && !IsSpace(b)
    ensures ParseDataPacket([a] + payload + [b]).Err?
  {
    var s := [a] + payload + [b];
    Unpadded(s);
    TrimPadded(StripBlanks, [], s, []);
  }

  /** The shortest accepted packets: three copies of one non-space
      character, such as `GGG`. */
  lemma ShortestPacket(tag: char)
    requires !IsSpace(tag)
    ensures ParseDataPacket([tag, tag, tag]) == Ok((tag, [tag]))
  {
    var p := [tag, tag, tag];
    Unpadded(p);
    TrimPadded(StripBlanks, [], p, []);
    assert p[1..2] == [tag];
  }

}
