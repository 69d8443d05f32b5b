/** The log filter `filter_pppoe_disconnections`: each router log entry is
    gated for relevance, tried against the disconnect patterns in order, and
    turned into at most one disconnection record. */
module Classifier {
  import opened Wrappers
  import opened Text
  import opened Patterns
  import opened Ipv4
  import opened Seqs

  /** One router log entry, a dictionary whose `time`, `message` and `topics`
      keys may each be missing. */
  datatype LogEntry = LogEntry(time: Option<string>, message: Option<string>, topics: Option<string>)

  /** A disconnection record; the fields carry the dictionary keys of the
      program: client name, address, disconnection time, message, topics. */
  datatype Disconnection = Disconnection(
    nombre: string,
    ip: string,
    tiempoDesconexion: string,
    mensaje: string,
    topics: string)

  /** The terms looked for in the lower-cased message, in the order tried. */
  const MessageTerms: seq<string> := ["pppoe", "ppp", "disconnected", "closed", "terminating..."]

  /** Some term of `terms[n..]` occurs in `text`. */
  function MentionsFrom(text: string, terms: seq<string>, n: nat): (b: bool)
    ensures b <==> exists k: nat :: n <= k < |terms| && Contains(text, terms[k])
    decreases |terms| - n
  {
    if |terms| <= n then false
    else if Contains(text, terms[n]) then true
    else MentionsFrom(text, terms, n + 1)
  }

  /** The relevance gate: the topics mention "pppoe" or "ppp" (case
      matters), or the lower-cased message mentions one of `MessageTerms`. */
  function IsPppoeLog(message: string, topics: string): (b: bool)
    ensures b <==> || Contains(topics, "pppoe")
                   || Contains(topics, "ppp")
                   || Contains(LowerStr(message), "pppoe")
                   || Contains(LowerStr(message), "ppp")
                   || Contains(LowerStr(message), "disconnected")
                   || Contains(LowerStr(message), "closed")
                   || Contains(LowerStr(message), "terminating...")
  {
    assert MessageTerms[0] == "pppoe" && MessageTerms[1] == "ppp" && MessageTerms[2] == "disconnected";
    assert MessageTerms[3] == "closed" && MessageTerms[4] == "terminating...";
    if Contains(topics, "pppoe") || Contains(topics, "ppp") then true
    else MentionsFrom(LowerStr(message), MessageTerms, 0)
  }

  /** What one entry contributes to the result: nothing, or one record. */
  function ClassifyEntry(e: LogEntry): (r: Option<Disconnection>)
    ensures e.time.None? || e.message.None? ==> r.None?
    ensures r.Some? ==> e.time.Some? && e.message.Some? && IsPppoeLog(e.message.value, e.topics.GetOr(""))
    ensures r.Some? <==> && e.time.Some? && e.message.Some?
                         && IsPppoeLog(e.message.value, e.topics.GetOr(""))
                         && exists n: nat :: n < |DisconnectPatterns| && Search(e.message.value, DisconnectPatterns[n]).Some?
    ensures r.Some? ==> && r.value.tiempoDesconexion == e.time.value
                        && r.value.mensaje == e.message.value
                        && r.value.topics == e.topics.GetOr("")
    ensures r.Some? ==> && FirstMatch(e.message.value, DisconnectPatterns).Some?
                        && var m := FirstMatch(e.message.value, DisconnectPatterns).value.m;
                           r.value.nombre == Strip(e.message.value[m.groupStart..m.groupEnd])
    ensures r.Some? ==> r.value.ip == ExtractIp(e.message.value)
  {
    if e.time.None? || e.message.None? then None
    else
      var message := e.message.value;
      var topics := e.topics.GetOr("");
      if !IsPppoeLog(message, topics) then None
      else
        match FirstMatch(message, DisconnectPatterns)
        case None => None
        case Some(hit) =>
          Some(Disconnection(Strip(Group(message, hit.m)), ExtractIp(message), e.time.value, message, topics))
  }

  /** `filter_pppoe_disconnections`: the records of the entries, in order. */
  function FilterPppoeDisconnections(logs: seq<LogEntry>): (r: seq<Disconnection>)
    ensures |r| <= |logs|
    ensures forall k :: 0 <= k < |r| ==> exists n :: 0 <= n < |logs| && ClassifyEntry(logs[n]) == Some(r[k])
  {
    FilterMap(ClassifyEntry, logs)
  }

  /** The filter distributes over concatenation: records keep the order of
      their entries, and an entry's contribution does not depend on the
      entries around it. */
  lemma FilterAppend(a: seq<LogEntry>, b: seq<LogEntry>)
    ensures FilterPppoeDisconnections(a + b) == FilterPppoeDisconnections(a) + FilterPppoeDisconnections(b)
  {
    FilterMapAppend(ClassifyEntry, a, b);
  }

  /** The records are exactly the contributions of the entries that have
      one, in the order of those entries: `idx` lists, increasing, the
      positions of the contributing entries. */
  lemma FilterSelection(logs: seq<LogEntry>) returns (idx: seq<nat>)
    ensures IsSelection(ClassifyEntry, logs, idx, FilterPppoeDisconnections(logs))
  {
    idx := FilterMapSelection(ClassifyEntry, logs);
  }

  /** An entry that lacks `time` or `message`, or that the relevance gate
      rejects, contributes no record wherever it stands. */
  lemma DropsUnusable(a: seq<LogEntry>, e: LogEntry, b: seq<LogEntry>)
    requires e.time.None? || e.message.None? || !IsPppoeLog(e.message.value, e.topics.GetOr(""))
    ensures FilterPppoeDisconnections(a + [e] + b) == FilterPppoeDisconnections(a + b)
  {
    FilterMapDrop(ClassifyEntry, a, e, b);
  }

  /** Because "ppp" occurs in "pppoe", the two "pppoe" tests of the gate
      are subsumed by the "ppp" tests. */
  lemma GateWithoutPppoe(message: string, topics: string)
    ensures IsPppoeLog(message, topics) <==>
              || Contains(topics, "ppp")
              || Contains(LowerStr(message), "ppp")
              || Contains(LowerStr(message), "disconnected")
              || Contains(LowerStr(message), "closed")
              || Contains(LowerStr(message), "terminating...")
  {
    assert OccursAt("pppoe", "ppp", 0);
    if Contains(topics, "pppoe") {
      ContainsInfix(topics, "ppp", "pppoe");
    }
    var lower := LowerStr(message);
    if Contains(lower, "pppoe") {
      ContainsInfix(lower, "ppp", "pppoe");
    }
  }

  /** A literal that occurs, ignoring case, in `s` puts every piece of its
      lower-cased text into the lower-cased `s`. */
  lemma LiteralMentions(s: string, t: string, i: nat, off: nat, term: string)
    requires LiteralAt(s, t, i)
    requires off + |term| <= |t| && LowerStr(t)[off..off + |term|] == term
    ensures Contains(LowerStr(s), term)
  {
    var lower := LowerStr(s);
    forall m | 0 <= m < |term|
      ensures lower[i + off + m] == term[m]
    {
      assert LowerStr(s[i..i + |t|])[off + m] == LowerStr(t)[off + m];
    }
    assert lower[i + off..i + off + |term|] == term;
    ContainsAt(lower, term, i + off);
  }

  /** Where the disconnect patterns spell out the gate's terms: "pppoe" at
      the head of the first two prefixes and inside the fourth. */
  lemma PppoeTerms()
    ensures LowerStr("pppoe ")[0..5] == "pppoe"
    ensures LowerStr("PPPoE connection closed for user ")[0..5] == "pppoe"
    ensures LowerStr("removed pppoe client ")[8..13] == "pppoe"
  {
    var t := "PPPoE connection closed for user ";
    assert LowerStr(t)[0] == 'p' && LowerStr(t)[1] == 'p' && LowerStr(t)[2] == 'p';
    assert LowerStr(t)[3] == 'o' && LowerStr(t)[4] == 'e';
  }

  /** "disconnected" in the third suffix. */
  lemma DisconnectedTerm()
    ensures LowerStr(" disconnected")[1..13] == "disconnected"
  {
  }

  /** "ppp" at the head of the fifth prefix. */
  lemma PppTerm()
    ensures LowerStr("PPP user ")[0..3] == "ppp"
  {
    var t := "PPP user ";
    assert LowerStr(t)[0] == 'p' && LowerStr(t)[1] == 'p' && LowerStr(t)[2] == 'p';
  }

  /** Every disconnect pattern carries one of the gate's message terms, so an
      entry that some pattern matches always passes the relevance gate. */
  lemma MatchedIsRelevant(message: string, topics: string, n: nat)
    requires n < |DisconnectPatterns| && Search(message, DisconnectPatterns[n]).Some?
    ensures IsPppoeLog(message, topics)
  {
    var p := DisconnectPatterns[n];
    var i: nat, j: nat :| MatchSpan(message, p, i, j);
    var lower := LowerStr(message);
    if n == 2 {
      DisconnectedTerm();
      LiteralMentions(message, p.suffix, j, 1, "disconnected");
      assert Contains(lower, MessageTerms[2]);
    } else if n == 4 {
      PppTerm();
      LiteralMentions(message, p.prefix, i, 0, "ppp");
      assert Contains(lower, MessageTerms[1]);
    } else {
      PppoeTerms();
      LiteralMentions(message, p.prefix, i, if n == 3 then 8 else 0, "pppoe");
      assert Contains(lower, MessageTerms[0]);
    }
  }

  /** The relevance gate never changes the outcome: an entry yields a record
      exactly when it has `time` and `message` and some pattern matches. */
  lemma GateIsRedundant(e: LogEntry)
    ensures ClassifyEntry(e).Some? <==>
              e.time.Some? && e.message.Some? && FirstMatch(e.message.value, DisconnectPatterns).Some?
  {
    if e.time.Some? && e.message.Some? {
      var hit := FirstMatch(e.message.value, DisconnectPatterns);
      if hit.Some? {
        MatchedIsRelevant(e.message.value, e.topics.GetOr(""), hit.value.index);
      }
    }
  }

  /** Round trip through the first pattern: an entry whose message reads
      "pppoe NAME disconnected" (NAME on one line) is recorded under NAME
      with surrounding whitespace stripped, and keeps its time, message and
      topics. */
  lemma FirstPatternRoundTrip(time: string, name: string, topics: Option<string>)
    requires '\n' !in name
    ensures var message := "pppoe " + name + " disconnected";
            ClassifyEntry(LogEntry(Some(time), Some(message), topics))
              == Some(Disconnection(Strip(name), ExtractIp(message), time, message, topics.GetOr("")))
  {
    var message := "pppoe " + name + " disconnected";
    var p := DisconnectPatterns[0];
    assert p == Pattern("pppoe ", " disconnected");
    SearchRoundTrip(p, name, "");
    assert message + "" == message;
    var m := Match(0, 6, 6 + |name|);
    assert Search(message, p) == Some(m);
    assert FirstMatch(message, DisconnectPatterns) == Some(Hit(0, m));
    assert message[6..6 + |name|] == name;
    MatchedIsRelevant(message, topics.GetOr(""), 0);
  }
}
