/** Worked inputs for the log filter and the reconnection check. */
module Examples {
  import opened Wrappers
  import opened Text
  import opened Patterns
  import opened Ipv4
  import opened Classifier
  import opened Reconcile

  /** The message "pppoe bob disconnected", written as the first pattern's
      prefix, the name and the suffix. */
  const BobMessage: string := "pppoe " + "bob" + " disconnected"

  /** "bob" carries no surrounding whitespace. */
  lemma BobStripped()
    ensures Strip("bob") == "bob"
  {
    assert [] + "bob" + [] == "bob";
    StripPadded([], "bob", []);
  }

  /** "pppoe bob disconnected" holds no address. */
  lemma BobNoAddress()
    ensures ExtractIp(BobMessage) == NoAddress
  {
    assert forall k :: 0 <= k < |BobMessage| ==> BobMessage[k] != '.';
    NoDotNoAddress(BobMessage);
  }

  /** "pppoe bob disconnected" is recorded under "bob" with no address. */
  lemma BobClassified(time: string)
    ensures ClassifyEntry(LogEntry(Some(time), Some(BobMessage), None))
         == Some(Disconnection("bob", NoAddress, time, BobMessage, ""))
  {
    FirstPatternRoundTrip(time, "bob", None);
    BobStripped();
    BobNoAddress();
  }

  /** "pppoe bob disconnected" yields one record for "bob" with no address. */
  lemma BobDisconnected(time: string)
    ensures FilterPppoeDisconnections([LogEntry(Some(time), Some(BobMessage), None)])
         == [Disconnection("bob", NoAddress, time, BobMessage, "")]
  {
    BobClassified(time);
    var e := LogEntry(Some(time), Some(BobMessage), None);
    assert [e][..0] == [];
  }

  /** The address of "user alice disconnected from 10.0.0.5" is "10.0.0.5". */
  lemma AliceAddress()
    ensures ExtractIp("user alice disconnected from " + "10.0.0.5") == "10.0.0.5"
  {
    var text := "user alice disconnected from ";
    assert forall m :: 0 <= m < |text| ==> !IsDigit(text[m]);
    assert QuadSplit("10.0.0.5", 0, 8, 2, 4, 6);
    TrailingAddress(text, "10.0.0.5");
  }

  /** The greedy capture runs to the last suffix on the line. */
  lemma GreedyCapture()
    ensures Search("user " + "a disconnected user b" + " disconnected", Pattern("user ", " disconnected"))
         == Some(Match(0, 5, 26))
  {
    SearchRoundTrip(Pattern("user ", " disconnected"), "a disconnected user b", "");
    assert "user " + "a disconnected user b" + " disconnected" + "" == "user " + "a disconnected user b" + " disconnected";
  }

  /** The capture does not cross a line break. */
  lemma CaptureStopsAtLineBreak()
    ensures Search("user " + "a" + " disconnected" + "\nuser b disconnected", Pattern("user ", " disconnected"))
         == Some(Match(0, 5, 6))
  {
    SearchRoundTrip(Pattern("user ", " disconnected"), "a", "\nuser b disconnected");
  }

  /** Active {x, y} against previous {x, z}: "x" is reported, the set is cleared. */
  lemma CheckExample(dx: ActiveClient, dy: ActiveClient)
    requires dx.name == "x" && dy.name == "y"
    ensures Check([dx, dy], {"x", "z"}) == CheckResult(["x"], {})
  {
    assert [dx, dy][1..] == [dy];
    assert [dy][1..] == [];
    assert "y" !in {"x", "z"};
    assert Reconnected([dy], {"x", "z"}) == [];
  }
}
