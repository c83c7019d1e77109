/** Socket states per poll, with ESTAB rows classified after the whole file is read.  Source: parse/netstat.go.

    Lines are split into fields; a time line carries its time, or nothing if malformed.  The counts of one poll are
    a multiset of state names. */
module Netstat {
  import opened Prelude

  datatype Line = Ts(time: Option<int>) | Fields(fields: seq<string>)

  /** What a line says: nothing; a state-first ESTAB row; a TCP row without state; a socket in a state. */
  datatype Row = Skip | Deferred(recv: bool, send: bool) | NoState(recv: bool, send: bool)
               | Socket(state: string, recv: bool, send: bool)

  datatype Sample = Sample(time: int, counts: multiset<string>, recv: bool, send: bool)

  function NormalizeSSState(tok: string): Option<string> {
    if tok == "ESTAB" || tok == "ESTABLISHED" then Some("ESTABLISHED")
    else if tok == "TIME-WAIT" || tok == "TIME_WAIT" then Some("TIME_WAIT")
    else if tok == "CLOSE-WAIT" || tok == "CLOSE_WAIT" then Some("CLOSE_WAIT")
    else if tok == "FIN-WAIT-1" || tok == "FIN_WAIT1" then Some("FIN_WAIT1")
    else if tok == "FIN-WAIT-2" || tok == "FIN_WAIT2" then Some("FIN_WAIT2")
    else if tok == "SYN-SENT" || tok == "SYN_SENT" then Some("SYN_SENT")
    else if tok == "SYN-RECV" || tok == "SYN_RECV" then Some("SYN_RECV")
    else if tok == "LAST-ACK" || tok == "LAST_ACK" then Some("LAST_ACK")
    else if tok == "LISTEN" || tok == "CLOSING" || tok == "CLOSED" then Some(tok)
    else if tok == "UNCONN" then Some("UDP")
    else None
  }

  predicate StateFirst(fields: seq<string>) {
    |fields| >= 4 && !("tcp" <= fields[0]) && !("udp" <= fields[0]) && NormalizeSSState(fields[0]).Some?
  }

  predicate IsEstab(tok: string) {
    tok == "ESTAB" || tok == "ESTABLISHED"
  }

  /** `tcp LISTEN 0 128 ...` or `tcp 0 0 local foreign STATE`. */
  function TcpKind(fields: seq<string>): Row
    requires |fields| >= 4
  {
    match NormalizeSSState(fields[1])
    case Some(canon) => Socket(canon, fields[2] != "0", fields[3] != "0")
    case None =>
      if |fields| >= 6 then Socket(fields[5], fields[1] != "0", fields[2] != "0")
      else NoState(fields[1] != "0", fields[2] != "0")
  }

  /** `udp UNCONN 0 0 ...` or `udp 0 0 ...`. */
  function UdpKind(fields: seq<string>): Row
    requires |fields| >= 4
  {
    if NormalizeSSState(fields[1]).Some? then Socket("UDP", fields[2] != "0", fields[3] != "0")
    else Socket("UDP", fields[1] != "0", fields[2] != "0")
  }

  /** `LISTEN 0 128 local foreign`; other first tokens are no sockets. */
  function StateFirstKind(fields: seq<string>): Row
    requires |fields| >= 4
  {
    match NormalizeSSState(fields[0])
    case None => Skip
    case Some(canon) =>
      if IsEstab(fields[0]) then Deferred(fields[1] != "0", fields[2] != "0")
      else Socket(canon, fields[1] != "0", fields[2] != "0")
  }

  function Kind(fields: seq<string>): Row {
    if |fields| < 4 then Skip
    else if "tcp" <= fields[0] then TcpKind(fields)
    else if "udp" <= fields[0] then UdpKind(fields)
    else StateFirstKind(fields)
  }

  predicate Recv(r: Row) {
    !r.Skip? && r.recv
  }

  predicate Send(r: Row) {
    !r.Skip? && r.send
  }

  /** The state under which a row is counted, if it is. */
  function Counted(r: Row, bucket: string): Option<string> {
    if r.Socket? && r.state != "" then Some(r.state)
    else if r.Deferred? then Some(bucket)
    else None
  }

  /** The shapes agree: putting the protocol before a state-first row changes neither its state, an ESTAB row being
      TCP then, nor its queues. */
  lemma ShapesAgree(row: seq<string>, bucket: string)
    requires StateFirst(row)
    ensures row[0] != "UNCONN" ==> Counted(Kind(["tcp"] + row), bucket) == Counted(Kind(row), "ESTABLISHED")
    ensures row[0] == "UNCONN" ==> Kind(["udp"] + row) == Kind(row)
    ensures Recv(Kind(["tcp"] + row)) == Recv(Kind(row)) && Send(Kind(["tcp"] + row)) == Send(Kind(row))
  {
    var tcp, udp := ["tcp"] + row, ["udp"] + row;
    assert tcp[0] == "tcp" && tcp[1] == row[0] && tcp[2] == row[1] && tcp[3] == row[2];
    assert udp[0] == "udp" && udp[1] == row[0] && udp[2] == row[1] && udp[3] == row[2];
    assert "tcp"[0] != "udp"[0] && "tcp"[..3] == "tcp";
  }

  /** Canonical TCP states are their own canonical form, so both notations are counted together. */
  lemma CanonIsStable(tok: string)
    requires NormalizeSSState(tok).Some? && tok != "UNCONN"
    ensures NormalizeSSState(NormalizeSSState(tok).value) == NormalizeSSState(tok)
  {
  }

  // The two-pass reading.

  predicate SaysUdp(l: Line) {
    l.Fields? && StateFirst(l.fields) && l.fields[0] == "UNCONN"
  }

  predicate SaysTcp(l: Line) {
    l.Fields? && StateFirst(l.fields) && l.fields[0] != "UNCONN" && !IsEstab(l.fields[0])
  }

  predicate AnyUdp(lines: seq<Line>) {
    exists i | 0 <= i < |lines| :: SaysUdp(lines[i])
  }

  predicate AnyTcp(lines: seq<Line>) {
    exists i | 0 <= i < |lines| :: SaysTcp(lines[i])
  }

  /** First pass: what the file's ESTAB rows are. */
  function Bucket(lines: seq<Line>): string {
    if AnyUdp(lines) && !AnyTcp(lines) then "UDP" else "ESTABLISHED"
  }

  /** A poll: its time and its rows. */
  datatype Poll = Poll(time: int, rows: seq<Row>)

  /** The polls of a file; the rows before the first time line make one at the snapshot's start. */
  function Polls(lines: seq<Line>, start: int): (ps: seq<Poll>)
    ensures ps != []
  {
    if lines == [] then [Poll(start, [])] else
    var ps := Polls(lines[..|lines| - 1], start);
    match lines[|lines| - 1]
    case Ts(t) => ps + [Poll(if t.Some? then t.value else start, [])]
    case Fields(f) => ps[..|ps| - 1] + [ps[|ps| - 1].(rows := ps[|ps| - 1].rows + [Kind(f)])]
  }

  function Counts(rows: seq<Row>, bucket: string): multiset<string> {
    if rows == [] then multiset{}
    else Counts(rows[..|rows| - 1], bucket) +
         match Counted(rows[|rows| - 1], bucket)
         case Some(s) => multiset{s}
         case None => multiset{}
  }

  predicate AnyRecv(rows: seq<Row>) {
    exists i | 0 <= i < |rows| :: Recv(rows[i])
  }

  predicate AnySend(rows: seq<Row>) {
    exists i | 0 <= i < |rows| :: Send(rows[i])
  }

  /** Second pass: one sample for each poll with a row that counts. */
  function SampleOf(p: Poll, bucket: string): seq<Sample> {
    if Counts(p.rows, bucket) == multiset{} then []
    else [Sample(p.time, Counts(p.rows, bucket), AnyRecv(p.rows), AnySend(p.rows))]
  }

  function Samples(ps: seq<Poll>, bucket: string): seq<Sample> {
    if ps == [] then [] else Samples(ps[..|ps| - 1], bucket) + SampleOf(ps[|ps| - 1], bucket)
  }

  /** The number of rows that count. */
  function Accepted(rows: seq<Row>): nat {
    if rows == [] then 0
    else Accepted(rows[..|rows| - 1]) + if Counted(rows[|rows| - 1], "").Some? then 1 else 0
  }

  lemma {:induction false} CountsSumToAccepted(rows: seq<Row>, bucket: string)
    ensures |Counts(rows, bucket)| == Accepted(rows)
  {
    if rows != [] {
      CountsSumToAccepted(rows[..|rows| - 1], bucket);
    }
  }

  // The one-pass parser.

  /** A poll while it is read, and when it is kept: its ESTAB rows are counted apart. */
  datatype Pending = Pending(time: int, states: multiset<string>, recv: bool, send: bool, popular: bool,
                             estab: nat, estabRecv: bool, estabSend: bool)

  function Empty(time: int): Pending {
    Pending(time, multiset{}, false, false, false, 0, false, false)
  }

  function Absorb(p: Pending, r: Row): Pending {
    match r
    case Skip => p
    case Deferred(recv, send) =>
      p.(estab := p.estab + 1, estabRecv := p.estabRecv || recv, estabSend := p.estabSend || send)
    case NoState(recv, send) => p.(recv := p.recv || recv, send := p.send || send)
    case Socket(state, recv, send) =>
      var q := p.(recv := p.recv || recv, send := p.send || send);
      if state == "" then q else q.(states := p.states + multiset{state}, popular := true)
  }

  function Gather(time: int, rows: seq<Row>): Pending {
    if rows == [] then Empty(time) else Absorb(Gather(time, rows[..|rows| - 1]), rows[|rows| - 1])
  }

  method Resolve(p: Pending, bucket: string) returns (s: seq<Sample>)
    ensures s == Resolved(p, bucket)
  {
    var popular, states, recvNZ, sendNZ := p.popular, p.states, p.recv, p.send;
    if p.estab > 0 {
      states := states[bucket := states[bucket] + p.estab];
      if p.estabRecv {
        recvNZ := true;
      }
      if p.estabSend {
        sendNZ := true;
      }
      popular := true;
    }
    assert p.estab == 0 ==> states == states[bucket := states[bucket] + p.estab];
    s := if popular then [Sample(p.time, states, recvNZ, sendNZ)] else [];
  }

  function Resolved(p: Pending, bucket: string): seq<Sample> {
    if p.popular || p.estab > 0 then
      [Sample(p.time, p.states[bucket := p.states[bucket] + p.estab],
              p.recv || (p.estab > 0 && p.estabRecv), p.send || (p.estab > 0 && p.estabSend))]
    else []
  }

  /** The counts of the rows are those kept, once the ESTAB rows are given their bucket. */
  ghost predicate CountsAgree(g: Pending, rows: seq<Row>, bucket: string) {
    && Counts(rows, bucket) == Plus(g.states, bucket, g.estab)
    && (g.popular <==> g.states != multiset{})
  }

  ghost predicate FlagsAgree(g: Pending, rows: seq<Row>) {
    && (AnyRecv(rows) <==> g.recv || g.estabRecv) && (AnySend(rows) <==> g.send || g.estabSend)
    && (g.estabRecv || g.estabSend ==> g.estab > 0)
  }

  lemma AnySnoc(rows: seq<Row>, r: Row)
    ensures AnyRecv(rows + [r]) <==> AnyRecv(rows) || Recv(r)
    ensures AnySend(rows + [r]) <==> AnySend(rows) || Send(r)
  {
    var all := rows + [r];
    assert all[|rows|] == r;
    assert forall i | 0 <= i < |rows| :: all[i] == rows[i];
  }

  /** `m` with `n` more of `b`. */
  function Plus<T(==)>(m: multiset<T>, b: T, n: nat): multiset<T> {
    m[b := m[b] + n]
  }

  lemma PlusOther<T>(m: multiset<T>, b: T, n: nat, s: T)
    ensures Plus(m + multiset{s}, b, n) == Plus(m, b, n) + multiset{s}
  {
  }

  lemma PlusOneMore<T>(m: multiset<T>, b: T, n: nat)
    ensures Plus(m, b, n + 1) == Plus(m, b, n) + multiset{b}
  {
  }

  function CountOne(r: Row, bucket: string): multiset<string> {
    match Counted(r, bucket)
    case Some(s) => multiset{s}
    case None => multiset{}
  }

  ghost predicate AddsOne(g: Pending, h: Pending, one: multiset<string>, bucket: string) {
    && Plus(h.states, bucket, h.estab) == Plus(g.states, bucket, g.estab) + one
    && (h.popular <==> h.states != multiset{})
  }

  lemma SocketAddsOne(g: Pending, h: Pending, state: string, bucket: string)
    requires h.states == g.states + multiset{state} && h.popular && h.estab == g.estab
    ensures AddsOne(g, h, multiset{state}, bucket)
  {
    PlusOther(g.states, bucket, g.estab, state);
    assert state in h.states;
  }

  lemma AbsorbKeepsCounts(g: Pending, r: Row, bucket: string)
    requires g.popular <==> g.states != multiset{}
    ensures AddsOne(g, Absorb(g, r), CountOne(r, bucket), bucket)
  {
    if r.Socket? && r.state != "" {
      SocketAddsOne(g, Absorb(g, r), r.state, bucket);
    } else if r.Deferred? {
      PlusOneMore(g.states, bucket, g.estab);
    }
  }

  lemma CountsSnoc(rows: seq<Row>, r: Row, bucket: string)
    ensures Counts(rows + [r], bucket) == Counts(rows, bucket) + CountOne(r, bucket)
  {
    assert (rows + [r])[..|rows|] == rows;
  }

  lemma AbsorbKeepsFlags(g: Pending, rows: seq<Row>, r: Row)
    requires FlagsAgree(g, rows)
    ensures FlagsAgree(Absorb(g, r), rows + [r])
  {
    AnySnoc(rows, r);
  }

  lemma OneMoreAgrees(g: Pending, rows: seq<Row>, r: Row, bucket: string)
    requires CountsAgree(g, rows, bucket)
    ensures CountsAgree(Absorb(g, r), rows + [r], bucket) && Absorb(g, r).time == g.time
  {
    AbsorbKeepsCounts(g, r, bucket);
    CountsSnoc(rows, r, bucket);
  }

  lemma {:induction false} GatherAgrees(time: int, rows: seq<Row>, bucket: string)
    ensures CountsAgree(Gather(time, rows), rows, bucket) && Gather(time, rows).time == time
  {
    if rows != [] {
      var before, r := rows[..|rows| - 1], rows[|rows| - 1];
      GatherAgrees(time, before, bucket);
      OneMoreAgrees(Gather(time, before), before, r, bucket);
      assert before + [r] == rows;
    }
  }

  lemma {:induction false} GatherFlagsAgree(time: int, rows: seq<Row>)
    ensures FlagsAgree(Gather(time, rows), rows)
  {
    if rows != [] {
      var before, r := rows[..|rows| - 1], rows[|rows| - 1];
      GatherFlagsAgree(time, before);
      AbsorbKeepsFlags(Gather(time, before), before, r);
      assert before + [r] == rows;
    }
  }

  /** Deferring the ESTAB rows of a poll changes nothing in its sample, and the sample depends on that poll alone. */
  lemma DeferringIsExact(p: Poll, bucket: string)
    ensures Resolved(Gather(p.time, p.rows), bucket) == SampleOf(p, bucket)
  {
    GatherAgrees(p.time, p.rows, bucket);
    GatherFlagsAgree(p.time, p.rows);
    var g := Gather(p.time, p.rows);
    assert g.estab > 0 ==> bucket in Counts(p.rows, bucket);
    if g.estab == 0 {
      assert Counts(p.rows, bucket) == g.states;
    }
  }

  function AllResolved(ps: seq<Pending>, bucket: string): seq<Sample> {
    if ps == [] then [] else AllResolved(ps[..|ps| - 1], bucket) + Resolved(ps[|ps| - 1], bucket)
  }

  predicate IsDeferred(l: Line) {
    l.Fields? && Kind(l.fields).Deferred?
  }

  predicate AnyDeferred(lines: seq<Line>) {
    exists i | 0 <= i < |lines| :: IsDeferred(lines[i])
  }

  /** The parser's file-level flags. */
  datatype Evidence = Evidence(sawUdp: bool, sawTcp: bool, deferred: nat)

  function Learn(e: Evidence, l: Line): Evidence {
    Evidence(e.sawUdp || SaysUdp(l), e.sawTcp || SaysTcp(l), e.deferred + if IsDeferred(l) then 1 else 0)
  }

  ghost predicate IsEvidence(e: Evidence, lines: seq<Line>) {
    (e.sawUdp <==> AnyUdp(lines)) && (e.sawTcp <==> AnyTcp(lines)) && (e.deferred > 0 <==> AnyDeferred(lines))
  }

  lemma LearnIsEvidence(e: Evidence, lines: seq<Line>, l: Line)
    requires IsEvidence(e, lines)
    ensures IsEvidence(Learn(e, l), lines + [l])
  {
    var all := lines + [l];
    assert all[|lines|] == l;
    assert forall i | 0 <= i < |lines| :: all[i] == lines[i];
  }

  /** A row with the protocol first: the state, and where its queues are. */
  method ReadProtocolFirst(fields: seq<string>, cur: Pending) returns (p: Pending, missingQueues: bool)
    requires |fields| >= 4
    ensures p == Absorb(cur, if "tcp" <= fields[0] then TcpKind(fields) else UdpKind(fields)) && !missingQueues
  {
    var state, tcpRowNoState := "", false;
    var recvQIdx, sendQIdx := 1, 2;
    var canon := NormalizeSSState(fields[1]);
    if "tcp" <= fields[0] {
      if canon.Some? {
        state, recvQIdx, sendQIdx := canon.value, 2, 3;
      } else if |fields| >= 6 {
        state := fields[5];
      } else {
        tcpRowNoState := true;
      }
    } else {
      if canon.Some? {
        recvQIdx, sendQIdx := 2, 3;
      }
      state := "UDP";
    }
    p := Count(cur, fields, state, tcpRowNoState, recvQIdx, sendQIdx);
    missingQueues := |fields| <= sendQIdx;
  }

  method ReadStateFirst(fields: seq<string>, cur: Pending, e: Evidence)
    returns (p: Pending, e': Evidence, missingQueues: bool)
    requires |fields| >= 4 && !("tcp" <= fields[0]) && !("udp" <= fields[0])
    ensures p == Absorb(cur, StateFirstKind(fields)) && e' == Learn(e, Fields(fields)) && !missingQueues
  {
    p, e', missingQueues := cur, e, false;
    var first := fields[0];
    var canon := NormalizeSSState(first);
    if canon.None? {
      return;
    }
    if first == "ESTAB" || first == "ESTABLISHED" {
      p := p.(estab := p.estab + 1, estabRecv := p.estabRecv || fields[1] != "0",
              estabSend := p.estabSend || fields[2] != "0");
      e' := e.(deferred := e.deferred + 1);
      return;
    }
    if first == "UNCONN" {
      e' := e.(sawUdp := true);
    } else {
      e' := e.(sawTcp := true);
    }
    p := Count(cur, fields, canon.value, false, 1, 2);
    missingQueues := |fields| <= 2;
  }

  /** One row.  No row is ever reported as missing its queue columns. */
  method ReadFields(fields: seq<string>, cur: Pending, e: Evidence)
    returns (p: Pending, e': Evidence, missingQueues: bool)
    ensures p == Absorb(cur, Kind(fields)) && e' == Learn(e, Fields(fields)) && !missingQueues
  {
    if |fields| < 4 {
      return cur, e, false;
    }
    if "tcp" <= fields[0] || "udp" <= fields[0] {
      p, missingQueues := ReadProtocolFirst(fields, cur);
      NoEvidence(fields, e);
      e' := e;
    } else {
      p, e', missingQueues := ReadStateFirst(fields, cur, e);
    }
  }

  lemma NoEvidence(fields: seq<string>, e: Evidence)
    requires |fields| >= 4 && ("tcp" <= fields[0] || "udp" <= fields[0])
    ensures Learn(e, Fields(fields)) == e
  {
  }

  method Count(cur: Pending, fields: seq<string>, state: string, tcpRowNoState: bool, recvQIdx: nat, sendQIdx: nat)
    returns (p: Pending)
    requires recvQIdx < |fields| && sendQIdx < |fields|
    ensures var recv, send := fields[recvQIdx] != "0", fields[sendQIdx] != "0";
            p == Absorb(cur, if tcpRowNoState then NoState(recv, send) else Socket(state, recv, send))
  {
    p := cur;
    if fields[recvQIdx] != "0" {
      p := p.(recv := true);
    }
    if fields[sendQIdx] != "0" {
      p := p.(send := true);
    }
    if tcpRowNoState || state == "" {
      return;
    }
    p := p.(states := p.states[state := p.states[state] + 1], popular := true);
    assert p.states == cur.states + multiset{state};
  }

  /** What the parser holds after `lines`: the finished polls resolve to their samples, the open one is gathered. */
  ghost predicate Holds(pending: seq<Pending>, cur: Pending, begun: bool, lines: seq<Line>, start: int,
                        bucket: string)
  {
    var ps := Polls(lines, start);
    && AllResolved(pending, bucket) == Samples(ps[..|ps| - 1], bucket)
    && cur == Gather(ps[|ps| - 1].time, ps[|ps| - 1].rows)
    && (!begun ==> cur == Empty(start))
  }

  /** Closing the open poll; one that never began has no sample. */
  method Flush(pending: seq<Pending>, cur: Pending, begun: bool, ghost lines: seq<Line>, ghost start: int,
               ghost bucket: string)
    returns (all: seq<Pending>)
    requires Holds(pending, cur, begun, lines, start, bucket)
    ensures AllResolved(all, bucket) == Samples(Polls(lines, start), bucket)
  {
    ghost var ps := Polls(lines, start);
    DeferringIsExact(ps[|ps| - 1], bucket);
    assert (pending + [cur])[..|pending|] == pending;
    all := pending;
    if begun || cur.estab > 0 {
      all := all + [cur];
    }
  }

  lemma TimeHolds(pending: seq<Pending>, lines: seq<Line>, t: Option<int>, start: int, bucket: string)
    requires AllResolved(pending, bucket) == Samples(Polls(lines, start), bucket)
    ensures Holds(pending, Empty(if t.Some? then t.value else start), true, lines + [Ts(t)], start, bucket)
  {
    assert (lines + [Ts(t)])[..|lines|] == lines;
    var p := Poll(if t.Some? then t.value else start, []);
    assert Polls(lines + [Ts(t)], start) == Polls(lines, start) + [p];
    assert (Polls(lines, start) + [p])[..|Polls(lines, start)|] == Polls(lines, start);
  }

  lemma FieldsHold(pending: seq<Pending>, cur: Pending, begun: bool, lines: seq<Line>, f: seq<string>, start: int,
                   bucket: string)
    requires Holds(pending, cur, begun, lines, start, bucket)
    ensures Holds(pending, Absorb(cur, Kind(f)), begun || !Kind(f).Skip?, lines + [Fields(f)], start, bucket)
  {
    assert (lines + [Fields(f)])[..|lines|] == lines;
    var ps := Polls(lines, start);
    var last := ps[|ps| - 1];
    var rows := last.rows + [Kind(f)];
    assert rows[..|rows| - 1] == last.rows;
    var qs := ps[..|ps| - 1] + [last.(rows := rows)];
    assert Polls(lines + [Fields(f)], start) == qs;
    assert qs[..|qs| - 1] == ps[..|ps| - 1];
  }

  method ReadLine(line: Line, start: int, pending: seq<Pending>, cur: Pending, begun: bool, e: Evidence,
                  ghost lines: seq<Line>, ghost bucket: string)
    returns (pending': seq<Pending>, cur': Pending, begun': bool, e': Evidence, missingQueues: bool)
    requires Holds(pending, cur, begun, lines, start, bucket)
    ensures Holds(pending', cur', begun', lines + [line], start, bucket) && e' == Learn(e, line) && !missingQueues
  {
    match line
    case Ts(t) =>
      pending' := Flush(pending, cur, begun, lines, start, bucket);
      TimeHolds(pending', lines, t, start, bucket);
      cur', begun' := Empty(if t.Some? then t.value else start), true;
      e', missingQueues := e, false;
    case Fields(f) =>
      FieldsHold(pending, cur, begun, lines, f, start, bucket);
      pending', begun' := pending, begun || !Kind(f).Skip?;
      cur', e', missingQueues := ReadFields(f, cur, e);
  }

  method ReadLines(lines: seq<Line>, start: int, ghost bucket: string)
    returns (pending: seq<Pending>, e: Evidence, anyMissingQueues: bool)
    ensures AllResolved(pending, bucket) == Samples(Polls(lines, start), bucket)
    ensures IsEvidence(e, lines) && !anyMissingQueues
  {
    pending, e, anyMissingQueues := [], Evidence(false, false, 0), false;
    var cur, begun := Empty(start), false;
    for i := 0 to |lines|
      invariant Holds(pending, cur, begun, lines[..i], start, bucket)
      invariant IsEvidence(e, lines[..i]) && !anyMissingQueues
    {
      assert lines[..i + 1] == lines[..i] + [lines[i]];
      LearnIsEvidence(e, lines[..i], lines[i]);
      var missing;
      pending, cur, begun, e, missing := ReadLine(lines[i], start, pending, cur, begun, e, lines[..i], bucket);
      anyMissingQueues := anyMissingQueues || missing;
    }
    assert lines[..|lines|] == lines;
    pending := Flush(pending, cur, begun, lines, start, bucket);
  }

  /** For every sequence of lines, the one-pass parser returns what the two-pass reading does. */
  method ParseNetstat(lines: seq<Line>, start: int)
    returns (samples: seq<Sample>, ambiguous: bool, anyMissingQueues: bool)
    ensures samples == Samples(Polls(lines, start), Bucket(lines))
    ensures ambiguous <==> AnyDeferred(lines) && !AnyUdp(lines) && !AnyTcp(lines)
    ensures !anyMissingQueues
  {
    var pending, e, missing := ReadLines(lines, start, Bucket(lines));
    anyMissingQueues := missing;
    var estabBucket := if e.sawUdp && !e.sawTcp then "UDP" else "ESTABLISHED";
    ambiguous := e.deferred > 0 && !e.sawUdp && !e.sawTcp;
    samples := ResolveAll(pending, estabBucket);
  }

  method ResolveAll(pending: seq<Pending>, bucket: string) returns (samples: seq<Sample>)
    ensures samples == AllResolved(pending, bucket)
  {
    samples := [];
    for k := 0 to |pending|
      invariant samples == AllResolved(pending[..k], bucket)
    {
      assert pending[..k + 1][..k] == pending[..k];
      var one := Resolve(pending[k], bucket);
      samples := samples + one;
    }
    assert pending[..|pending|] == pending;
  }

  /** Every sample counts exactly the accepted rows of a poll of the file. */
  lemma {:induction false} SamplesCountRows(ps: seq<Poll>, bucket: string, s: Sample)
    requires s in Samples(ps, bucket)
    ensures exists i | 0 <= i < |ps| :: s in SampleOf(ps[i], bucket) && |s.counts| == Accepted(ps[i].rows) > 0
  {
    var n := |ps| - 1;
    if s in SampleOf(ps[n], bucket) {
      CountsSumToAccepted(ps[n].rows, bucket);
    } else {
      SamplesCountRows(ps[..n], bucket, s);
      var i :| 0 <= i < n && s in SampleOf(ps[..n][i], bucket) && |s.counts| == Accepted(ps[..n][i].rows) > 0;
      assert ps[..n][i] == ps[i];
    }
  }
}
