/** Routing of a command typed by a Bedrock player.

    The translator turns the packet's text into plain text, drops the leading slash and the
    trailing whitespace, and then either runs the command with the proxy's own command
    registry (on the standalone and ViaProxy platforms, when the first word names one of its
    root commands), drops it as too long, or forwards it to the Java server.
 */
module CommandRequest {

  datatype Platform = Standalone | ViaProxy | OtherPlatform

  /** The collaborators of one translation. */
  datatype Proxy = Proxy(
    platform: Platform,
    convertToPlainText: string -> string,
    rootCommands: set<string>,
    isTooLong: string -> bool)

  /** What happens to one command request. Plain text that is empty makes removing the first
      character fail, which ends the translation with an exception. */
  datatype Outcome =
    | RanLocally(command: string)
    | DroppedTooLong(command: string)
    | SentToServer(command: string)
    | SubstringOutOfBounds

  /** Java's `Character.isWhitespace`: the space, line and paragraph separators other than the
      non-breaking spaces U+00A0, U+2007 and U+202F, and the controls U+0009..U+000D and
      U+001C..U+001F. */
  predicate IsWhitespace(c: char) {
    var n := c as int;
    || 0x09 <= n <= 0x0D
    || 0x1C <= n <= 0x20
    || n == 0x1680
    || 0x2000 <= n <= 0x2006
    || 0x2008 <= n <= 0x200A
    || n == 0x2028 || n == 0x2029
    || n == 0x205F || n == 0x3000
  }

  /** `String.stripTrailing`: the longest prefix of `s` that does not end in whitespace. */
  function StripTrailing(s: string): (r: string)
    ensures |r| <= |s| && r == s[..|r|]
    ensures forall i :: |r| <= i < |s| ==> IsWhitespace(s[i])
    ensures r == [] || !IsWhitespace(r[|r| - 1])
  {
    if s != [] && IsWhitespace(s[|s| - 1]) then StripTrailing(s[..|s| - 1]) else s
  }

  /** The three properties of `StripTrailing` determine its result. */
  lemma {:induction false} StripTrailingUnique(s: string, t: string)
    requires |t| <= |s| && t == s[..|t|]
    requires forall i :: |t| <= i < |s| ==> IsWhitespace(s[i])
    requires t == [] || !IsWhitespace(t[|t| - 1])
    ensures t == StripTrailing(s)
  {
  }

  /** The position of the first space, or |s| when there is none. */
  function FirstSpace(s: string): (k: nat)
    ensures k <= |s|
    ensures forall i :: 0 <= i < k ==> s[i] != ' '
    ensures k < |s| ==> s[k] == ' '
  {
    if s == [] || s[0] == ' ' then 0 else 1 + FirstSpace(s[1..])
  }

  /** The root of a command: the text before its first space. */
  function RootToken(s: string): string {
    s[..FirstSpace(s)]
  }

  /** The pieces between the spaces of `s`: one more than there are spaces, empty ones kept. */
  function SplitOnSpace(s: string): (parts: seq<string>)
    ensures |parts| > 0
    ensures parts[0] == RootToken(s)
    decreases |s|
  {
    var k := FirstSpace(s);
    if k == |s| then [s] else [s[..k]] + SplitOnSpace(s[k + 1..])
  }

  /** Removing the empty strings at the end of a split. */
  function DropTrailingEmpty(parts: seq<string>): (r: seq<string>)
    ensures |r| <= |parts| && r == parts[..|r|]
    ensures forall i :: |r| <= i < |parts| ==> parts[i] == []
    ensures r == [] || r[|r| - 1] != []
  {
    if parts != [] && parts[|parts| - 1] == [] then DropTrailingEmpty(parts[..|parts| - 1]) else parts
  }

  /** Java's `s.split(" ")`: no space gives `[s]`, otherwise the pieces between the spaces
      with the trailing empty pieces removed. */
  function JavaSplit(s: string): seq<string> {
    if FirstSpace(s) == |s| then [s] else DropTrailingEmpty(SplitOnSpace(s))
  }

  lemma {:induction false} LastPieceNonEmpty(s: string)
    requires s != [] && s[|s| - 1] != ' '
    ensures var parts := SplitOnSpace(s); parts[|parts| - 1] != []
    decreases |s|
  {
    var k := FirstSpace(s);
    if k < |s| {
      var rest := s[k + 1..];
      assert rest != [] && rest[|rest| - 1] == s[|s| - 1];
      LastPieceNonEmpty(rest);
    }
  }

  /** The first element of Java's split, when there is one, is the root; a string that does
      not end in a space always splits into at least one piece. */
  lemma JavaSplitFirstIsRoot(s: string)
    ensures |JavaSplit(s)| > 0 ==> JavaSplit(s)[0] == RootToken(s)
    ensures (s == [] || s[|s| - 1] != ' ') ==> |JavaSplit(s)| > 0
  {
    if FirstSpace(s) < |s| && s[|s| - 1] != ' ' {
      LastPieceNonEmpty(s);
    }
  }

  predicate HasLocalCommands(platform: Platform) {
    platform == Standalone || platform == ViaProxy
  }

  /** The translator. */
  function Translate(proxy: Proxy, packetCommand: string): (r: Outcome)
    ensures var text := proxy.convertToPlainText(packetCommand);
      && (r == SubstringOutOfBounds <==> text == [])
      && (text != [] ==> r.command == StripTrailing(text[1..]))
    ensures !r.SubstringOutOfBounds? ==> r.command == [] || !IsWhitespace(r.command[|r.command| - 1])
    ensures r.RanLocally? ==> HasLocalCommands(proxy.platform) && RootToken(r.command) in proxy.rootCommands
    ensures !r.SubstringOutOfBounds? && HasLocalCommands(proxy.platform) && RootToken(r.command) in proxy.rootCommands ==> r.RanLocally?
    ensures r.DroppedTooLong? ==> proxy.isTooLong(r.command)
    ensures r.SentToServer? ==> !proxy.isTooLong(r.command)
    ensures !r.SubstringOutOfBounds? && !r.RanLocally? ==> (r.DroppedTooLong? <==> proxy.isTooLong(r.command))
  {
    var text := proxy.convertToPlainText(packetCommand);
    if text == [] then SubstringOutOfBounds
    else
      var command := StripTrailing(text[1..]);
      var args := JavaSplit(command);
      JavaSplitFirstIsRoot(command);
      if HasLocalCommands(proxy.platform) && |args| > 0 && args[0] in proxy.rootCommands then
        RanLocally(command)
      else if proxy.isTooLong(command) then
        DroppedTooLong(command)
      else
        SentToServer(command)
  }

  /** The command handled is the plain text without its first character and without its
      trailing whitespace. */
  lemma HandledCommandIsNormalised(proxy: Proxy, packetCommand: string)
    requires proxy.convertToPlainText(packetCommand) != []
    ensures var text := proxy.convertToPlainText(packetCommand);
      var c := Translate(proxy, packetCommand).command;
      && c == text[1..][..|c|]
      && (forall i :: 1 + |c| <= i < |text| ==> IsWhitespace(text[i]))
      && (c == [] || !IsWhitespace(c[|c| - 1]))
  {
  }

  /** Outside the standalone and ViaProxy platforms nothing runs locally. */
  lemma NoLocalRunElsewhere(proxy: Proxy, packetCommand: string)
    requires proxy.platform == OtherPlatform
    ensures !Translate(proxy, packetCommand).RanLocally?
  {
  }
}
