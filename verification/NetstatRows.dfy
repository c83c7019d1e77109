/** What the rows of both notations mean, column by column, and where the rows of a file are counted.
    Source: parse/netstat.go. */
module NetstatRows {
  import opened Prelude
  import opened Netstat

  // State names.

  /** The names under which TCP sockets are counted. */
  predicate IsName(s: string) {
    IsWait(s) || IsHandshake(s) || IsPlain(s)
  }

  predicate IsWait(s: string) {
    s == "TIME_WAIT" || s == "CLOSE_WAIT" || s == "FIN_WAIT1" || s == "FIN_WAIT2"
  }

  predicate IsHandshake(s: string) {
    s == "SYN_SENT" || s == "SYN_RECV" || s == "LAST_ACK"
  }

  predicate IsPlain(s: string) {
    s == "ESTABLISHED" || s == "LISTEN" || s == "CLOSING" || s == "CLOSED"
  }

  function Dashed(s: string): string {
    seq(|s|, i requires 0 <= i < |s| => if s[i] == '_' then '-' else s[i])
  }

  /** The spelling of `ss`: dashes, also before a digit. */
  function SsSpelling(name: string): string {
    if name != "" && (name[|name| - 1] == '1' || name[|name| - 1] == '2') then
      Dashed(name[..|name| - 1]) + ['-', name[|name| - 1]]
    else Dashed(name)
  }

  lemma WaitStates(tok: string)
    ensures NormalizeSSState(tok) == Some("TIME_WAIT") <==> tok == "TIME_WAIT" || tok == "TIME-WAIT"
    ensures NormalizeSSState(tok) == Some("CLOSE_WAIT") <==> tok == "CLOSE_WAIT" || tok == "CLOSE-WAIT"
    ensures NormalizeSSState(tok) == Some("FIN_WAIT1") <==> tok == "FIN_WAIT1" || tok == "FIN-WAIT-1"
    ensures NormalizeSSState(tok) == Some("FIN_WAIT2") <==> tok == "FIN_WAIT2" || tok == "FIN-WAIT-2"
  {
  }

  lemma HandshakeStates(tok: string)
    ensures NormalizeSSState(tok) == Some("SYN_SENT") <==> tok == "SYN_SENT" || tok == "SYN-SENT"
    ensures NormalizeSSState(tok) == Some("SYN_RECV") <==> tok == "SYN_RECV" || tok == "SYN-RECV"
    ensures NormalizeSSState(tok) == Some("LAST_ACK") <==> tok == "LAST_ACK" || tok == "LAST-ACK"
  {
  }

  lemma PlainStates(tok: string)
    ensures NormalizeSSState(tok) == Some("ESTABLISHED") <==> tok == "ESTABLISHED" || tok == "ESTAB"
    ensures NormalizeSSState(tok) == Some("LISTEN") <==> tok == "LISTEN"
    ensures NormalizeSSState(tok) == Some("CLOSING") <==> tok == "CLOSING"
    ensures NormalizeSSState(tok) == Some("CLOSED") <==> tok == "CLOSED"
  {
  }

  lemma WaitSpellings(name: string, tok: string)
    requires IsWait(name)
    ensures NormalizeSSState(tok) == Some(name) <==> tok == name || tok == SsSpelling(name)
  {
    WaitStates(tok);
    assert SsSpelling("TIME_WAIT") == "TIME-WAIT" && SsSpelling("CLOSE_WAIT") == "CLOSE-WAIT";
    assert SsSpelling("FIN_WAIT1") == "FIN-WAIT-1" && SsSpelling("FIN_WAIT2") == "FIN-WAIT-2";
  }

  lemma HandshakeSpellings(name: string, tok: string)
    requires IsHandshake(name)
    ensures NormalizeSSState(tok) == Some(name) <==> tok == name || tok == SsSpelling(name)
  {
    HandshakeStates(tok);
    assert SsSpelling("SYN_SENT") == "SYN-SENT" && SsSpelling("SYN_RECV") == "SYN-RECV";
    assert SsSpelling("LAST_ACK") == "LAST-ACK";
  }

  lemma PlainSpellings(name: string, tok: string)
    requires IsPlain(name) && tok != "ESTAB"
    ensures NormalizeSSState(tok) == Some(name) <==> tok == name || tok == SsSpelling(name)
  {
    PlainStates(tok);
    assert SsSpelling("ESTABLISHED") == "ESTABLISHED" && SsSpelling("LISTEN") == "LISTEN";
    assert SsSpelling("CLOSING") == "CLOSING" && SsSpelling("CLOSED") == "CLOSED";
  }

  lemma OnlyNames(tok: string)
    ensures NormalizeSSState(tok).Some? && tok != "UNCONN" ==> IsName(NormalizeSSState(tok).value)
  {
  }

  lemma Abbreviations()
    ensures NormalizeSSState("ESTAB") == Some("ESTABLISHED") && NormalizeSSState("UNCONN") == Some("UDP")
  {
  }

  /** A token is a state exactly when it is a canonical name or the spelling that `ss` gives it, and then stands for
      that name; but `ss` abbreviates ESTABLISHED and calls a UDP socket unconnected. */
  lemma NormalizesExactly(tok: string, name: string)
    ensures tok != "ESTAB" && tok != "UNCONN" ==>
              (NormalizeSSState(tok) == Some(name) <==> IsName(name) && (tok == name || tok == SsSpelling(name)))
    ensures NormalizeSSState("ESTAB") == Some("ESTABLISHED") && NormalizeSSState("UNCONN") == Some("UDP")
  {
    Abbreviations();
    if tok != "ESTAB" && tok != "UNCONN" {
      OnlyNames(tok);
      if IsWait(name) {
        WaitSpellings(name, tok);
      } else if IsHandshake(name) {
        HandshakeSpellings(name, tok);
      } else if IsPlain(name) {
        PlainSpellings(name, tok);
      }
    }
  }

  // Columns.

  /** A queue length: it begins with a digit, as no state does. */
  predicate IsCount(s: string) {
    s != "" && '0' <= s[0] <= '9'
  }

  /** The token is a spelling of the name. */
  predicate Spells(tok: string, name: string) {
    (IsName(name) && (tok == name || tok == SsSpelling(name))) || (tok == "ESTAB" && name == "ESTABLISHED")
  }

  lemma StatesAreUpperCase(tok: string)
    requires NormalizeSSState(tok).Some?
    ensures tok != "" && 'A' <= tok[0] <= 'Z'
  {
  }

  lemma CountsAreNoStates(s: string)
    requires IsCount(s)
    ensures NormalizeSSState(s).None?
  {
    if NormalizeSSState(s).Some? {
      StatesAreUpperCase(s);
    }
  }

  lemma SpellsNormalizes(tok: string, name: string)
    requires Spells(tok, name)
    ensures NormalizeSSState(tok) == Some(name) && tok != "UNCONN"
  {
    NormalizesExactly(tok, name);
    if tok == "UNCONN" {
      UnconnIsNoName(name);
    }
  }

  lemma UnconnIsNoName(name: string)
    requires IsName(name)
    ensures SsSpelling(name) != "UNCONN" && name != "UNCONN"
  {
    assert name[0] != 'U';
    assert SsSpelling(name)[0] == name[0];
  }

  /** `netstat -an`: protocol, both queues, both addresses, state. */
  lemma NetstatTcp(proto: string, recv: string, send: string, addresses: seq<string>, state: string, rest: seq<string>)
    requires "tcp" <= proto && IsCount(recv) && |addresses| == 2
    ensures Kind([proto, recv, send] + addresses + [state] + rest) == Socket(state, recv != "0", send != "0")
    ensures Kind([proto, recv, send] + addresses) == NoState(recv != "0", send != "0")
  {
    CountsAreNoStates(recv);
  }

  /** `ss`: protocol, state, both queues. */
  lemma SsTcp(proto: string, tok: string, name: string, recv: string, send: string, rest: seq<string>)
    requires "tcp" <= proto && Spells(tok, name)
    ensures Kind([proto, tok, recv, send] + rest) == Socket(name, recv != "0", send != "0")
  {
    SpellsNormalizes(tok, name);
  }

  /** UDP in either notation: sockets have no state. */
  lemma Udp(proto: string, tok: string, recv: string, send: string, address: string, rest: seq<string>)
    requires "udp" <= proto && (tok == "UNCONN" || tok == "ESTAB") && IsCount(recv)
    ensures Kind([proto, recv, send, address] + rest) == Socket("UDP", recv != "0", send != "0")
    ensures Kind([proto, tok, recv, send] + rest) == Socket("UDP", recv != "0", send != "0")
  {
    CountsAreNoStates(recv);
    Abbreviations();
    assert proto[..3] == "udp" && proto[0] == 'u';
  }

  /** `ss -tan` and `ss -uan`: state, both queues; an established socket may be either's. */
  lemma StateComesFirst(tok: string, name: string, recv: string, send: string, address: string, rest: seq<string>)
    requires Spells(tok, name) || (tok == "UNCONN" && name == "UDP")
    ensures Kind([tok, recv, send, address] + rest)
            == if name == "ESTABLISHED" then Deferred(recv != "0", send != "0")
               else Socket(name, recv != "0", send != "0")
  {
    Abbreviations();
    if tok != "UNCONN" {
      SpellsNormalizes(tok, name);
    }
    StatesAreUpperCase(tok);
    EstablishedSpellings(tok, name);
  }

  lemma EstablishedSpellings(tok: string, name: string)
    requires NormalizeSSState(tok) == Some(name)
    ensures name == "ESTABLISHED" <==> IsEstab(tok)
  {
    PlainStates(tok);
  }

  /** Rows that are too short, or begin otherwise, are skipped. */
  lemma OthersAreSkipped(fields: seq<string>)
    requires |fields| < 4 || (!("tcp" <= fields[0]) && !("udp" <= fields[0]) && fields[0] != "UNCONN"
                              && forall name :: !Spells(fields[0], name))
    ensures Kind(fields) == Skip
  {
    if |fields| >= 4 && NormalizeSSState(fields[0]).Some? {
      var name := NormalizeSSState(fields[0]).value;
      Abbreviations();
      NormalizesExactly(fields[0], name);
      assert Spells(fields[0], name);
    }
  }

  // What the file says of its established sockets.

  predicate IsRow(l: Line) {
    l.Fields? && |l.fields| >= 4
  }

  /** The row is that of an unconnected UDP socket... */
  predicate IsUnconnected(l: Line) {
    IsRow(l) && l.fields[0] == "UNCONN"
  }

  /** ...or of a TCP socket in a state other than ESTABLISHED, which comes first. */
  ghost predicate IsTcpOnly(l: Line) {
    IsRow(l) && exists name :: Spells(l.fields[0], name) && name != "ESTABLISHED"
  }

  /** A token in front is a state, and no protocol. */
  lemma FrontTokens(tok: string)
    requires NormalizeSSState(tok).Some?
    ensures !("tcp" <= tok) && !("udp" <= tok)
    ensures tok == "UNCONN" || Spells(tok, NormalizeSSState(tok).value)
    ensures NormalizeSSState(tok).value == "ESTABLISHED" <==> IsEstab(tok)
  {
    StatesAreUpperCase(tok);
    Abbreviations();
    EstablishedSpellings(tok, NormalizeSSState(tok).value);
    NormalizesExactly(tok, NormalizeSSState(tok).value);
    assert "tcp"[0] == 't' && "udp"[0] == 'u';
  }

  lemma EvidenceExactly(l: Line)
    ensures SaysUdp(l) <==> IsUnconnected(l)
    ensures SaysTcp(l) <==> IsTcpOnly(l)
  {
    if IsRow(l) {
      var tok := l.fields[0];
      Abbreviations();
      if NormalizeSSState(tok).Some? {
        FrontTokens(tok);
      }
      forall name | Spells(tok, name)
        ensures NormalizeSSState(tok) == Some(name) && tok != "UNCONN"
      {
        SpellsNormalizes(tok, name);
      }
    }
  }

  /** Established sockets without a protocol are UDP exactly when the file has an unconnected UDP socket and no other
      TCP state in front. */
  ghost predicate AreUdp(lines: seq<Line>) {
    && (exists i | 0 <= i < |lines| :: IsUnconnected(lines[i]))
    && forall i | 0 <= i < |lines| :: !IsTcpOnly(lines[i])
  }

  /** The number of rows in a state. */
  function InState(rows: seq<Row>, state: string): nat {
    if rows == [] then 0
    else InState(rows[..|rows| - 1], state) +
         if rows[|rows| - 1].Socket? && rows[|rows| - 1].state == state then 1 else 0
  }

  function Established(rows: seq<Row>): nat {
    if rows == [] then 0 else Established(rows[..|rows| - 1]) + if rows[|rows| - 1].Deferred? then 1 else 0
  }

  lemma {:induction false} CountsPerState(rows: seq<Row>, bucket: string, state: string)
    requires state != ""
    ensures Counts(rows, bucket)[state] == InState(rows, state) + if state == bucket then Established(rows) else 0
  {
    if rows != [] {
      CountsPerState(rows[..|rows| - 1], bucket, state);
    }
  }

  lemma BucketExactly(lines: seq<Line>)
    ensures Bucket(lines) == if AreUdp(lines) then "UDP" else "ESTABLISHED"
  {
    forall i | 0 <= i < |lines|
      ensures SaysUdp(lines[i]) <==> IsUnconnected(lines[i])
      ensures SaysTcp(lines[i]) <==> IsTcpOnly(lines[i])
    {
      EvidenceExactly(lines[i]);
    }
  }

  /** In the sample of a poll, each state has the number of its rows; those without a protocol that are established
      count as UDP if the file says so, and as ESTABLISHED otherwise. */
  lemma SampleCountsStates(lines: seq<Line>, p: Poll, s: Sample, state: string)
    requires s in SampleOf(p, Bucket(lines)) && state != ""
    ensures s.time == p.time
    ensures s.counts[state]
            == InState(p.rows, state) +
               if state == (if AreUdp(lines) then "UDP" else "ESTABLISHED") then Established(p.rows) else 0
  {
    BucketExactly(lines);
    CountsPerState(p.rows, Bucket(lines), state);
  }

  // Polls.

  /** The last poll has the time of the last time line, or of the start, and the rows after it. */
  ghost predicate IsLastPoll(p: Poll, lines: seq<Line>, start: int, from: nat) {
    && from <= |lines| && (forall i | from <= i < |lines| :: lines[i].Fields?)
    && (if from == 0 then p.time == start
        else lines[from - 1].Ts? && p.time == if lines[from - 1].time.Some? then lines[from - 1].time.value else start)
    && |p.rows| == |lines| - from && forall i | from <= i < |lines| :: p.rows[i - from] == Kind(lines[i].fields)
  }

  lemma RowExtendsPoll(p: Poll, lines: seq<Line>, f: seq<string>, start: int, from: nat)
    requires IsLastPoll(p, lines, start, from)
    ensures IsLastPoll(p.(rows := p.rows + [Kind(f)]), lines + [Fields(f)], start, from)
  {
    var all, rows := lines + [Fields(f)], p.rows + [Kind(f)];
    forall i | from <= i < |all|
      ensures all[i].Fields? && rows[i - from] == Kind(all[i].fields)
    {
      if i < |lines| {
        assert all[i] == lines[i];
      }
    }
  }

  lemma NextRow(ps: seq<Poll>, lines: seq<Line>, f: seq<string>, start: int)
    requires ps == Polls(lines, start)
    ensures var p := ps[|ps| - 1];
            Polls(lines + [Fields(f)], start) == ps[..|ps| - 1] + [p.(rows := p.rows + [Kind(f)])]
  {
    var all := lines + [Fields(f)];
    assert all[..|all| - 1] == lines;
  }

  lemma NextPoll(ps: seq<Poll>, lines: seq<Line>, t: Option<int>, start: int)
    requires ps == Polls(lines, start)
    ensures var next := Polls(lines + [Ts(t)], start);
            && |next| == |ps| + 1 && next[..|ps|] == ps
            && IsLastPoll(next[|ps|], lines + [Ts(t)], start, |lines| + 1)
  {
    var all := lines + [Ts(t)];
    assert all[..|all| - 1] == lines;
  }

  /** A time line begins a poll and leaves those before it alone; the rows up to the next one are the poll's. */
  lemma {:induction false} PollsAreDelimited(lines: seq<Line>, start: int) returns (from: nat)
    ensures from <= |lines| && IsLastPoll(Polls(lines, start)[|Polls(lines, start)| - 1], lines, start, from)
    ensures from > 0 ==> Polls(lines, start)[..|Polls(lines, start)| - 1] == Polls(lines[..from - 1], start)
    ensures from == 0 ==> |Polls(lines, start)| == 1
  {
    if lines == [] {
      from := 0;
    } else {
      var before := lines[..|lines| - 1];
      assert before + [lines[|lines| - 1]] == lines;
      match lines[|lines| - 1]
      case Ts(t) =>
        NextPoll(Polls(before, start), before, t, start);
        from := |lines|;
      case Fields(f) =>
        from := PollsAreDelimited(before, start);
        var ps := Polls(before, start);
        NextRow(ps, before, f, start);
        RowExtendsPoll(ps[|ps| - 1], before, f, start, from);
        assert Polls(lines, start)[..|ps| - 1] == ps[..|ps| - 1];
        assert from > 0 ==> before[..from - 1] == lines[..from - 1];
    }
  }
}
