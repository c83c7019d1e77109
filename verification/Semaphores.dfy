/** The contention breakdown of the SEMAPHORES section.  Sources: parse/innodbstatus.go and model/model.go.

    Lines are tokenised: `Waited` is a waiting-thread line, `Mutex` a line that names a mutex. */
module Semaphores {
  import opened Prelude

  type Name = s: string | s != "" witness "M"

  datatype Line = Section(semaphores: bool) | Waited(file: string, lineNo: nat) | Mutex(name: Name) | Blank | Other
  datatype Site = Site(file: string, lineNo: nat, mutex: string)
  datatype SiteCount = SiteCount(site: Site, waits: nat)
  datatype Report = Report(threads: nat, sites: seq<SiteCount>, noSections: bool, mismatch: bool)

  // What the breakdown means.

  /** The mutex named on the next line that is not blank, or nothing. */
  function NameAfter(lines: seq<Line>): string {
    if lines == [] then ""
    else if lines[0].Blank? then NameAfter(lines[1..])
    else if lines[0].Mutex? then lines[0].name
    else ""
  }

  /** One site for each waiting-thread line of the section. */
  function Sites(lines: seq<Line>, inSection: bool): multiset<Site> {
    if lines == [] then multiset{}
    else match lines[0]
         case Section(s) => Sites(lines[1..], s)
         case Waited(f, l) =>
           (if inSection then multiset{Site(f, l, NameAfter(lines[1..]))} else multiset{}) +
           Sites(lines[1..], inSection)
         case _ => Sites(lines[1..], inSection)
  }

  function Threads(lines: seq<Line>, inSection: bool): nat {
    if lines == [] then 0
    else match lines[0]
         case Section(s) => Threads(lines[1..], s)
         case Waited(_, _) => (if inSection then 1 else 0) + Threads(lines[1..], inSection)
         case _ => Threads(lines[1..], inSection)
  }

  lemma {:induction false} OneSitePerThread(lines: seq<Line>, inSection: bool)
    ensures |Sites(lines, inSection)| == Threads(lines, inSection)
  {
    if lines != [] {
      OneSitePerThread(lines[1..], if lines[0].Section? then lines[0].semaphores else inSection);
    }
  }

  // The same, line by line.

  /** Line `i` is in the section: the last heading before it opens the section, or there is none and it was open. */
  ghost predicate IsInside(lines: seq<Line>, i: nat, inSection: bool)
    requires i < |lines|
  {
    || (inSection && forall x | 0 <= x < i :: !lines[x].Section?)
    || exists h: nat :: h < i && lines[h] == Section(true) && forall x | h < x < i :: !lines[x].Section?
  }

  /** The first line from `from` on that is not blank names the mutex; the empty name says that none does. */
  ghost predicate IsNamed(lines: seq<Line>, from: nat, name: string) {
    if name == "" then forall j: nat | from <= j < |lines| && lines[j].Mutex? :: !AllBlank(lines, from, j)
    else exists j: nat :: from <= j < |lines| && lines[j].Mutex? && lines[j].name == name && AllBlank(lines, from, j)
  }

  ghost predicate AllBlank(lines: seq<Line>, from: nat, to: nat)
    requires to <= |lines|
  {
    forall x | from <= x < to :: lines[x].Blank?
  }

  /** Line `i` is a thread of the section that waits at the site. */
  ghost predicate WaitsAt(lines: seq<Line>, i: nat, inSection: bool, s: Site) {
    && i < |lines| && lines[i] == Waited(s.file, s.lineNo) && IsInside(lines, i, inSection)
    && IsNamed(lines, i + 1, s.mutex)
  }

  lemma NamedLater(lines: seq<Line>, from: nat, name: string)
    requires lines != []
    ensures IsNamed(lines, from + 1, name) <==> IsNamed(lines[1..], from, name)
  {
    var rest := lines[1..];
    forall j: nat | from <= j < |rest|
      ensures AllBlank(rest, from, j) <==> AllBlank(lines, from + 1, j + 1)
    {
      assert forall x | from <= x < j :: rest[x] == lines[x + 1];
      assert forall x | from + 1 <= x < j + 1 :: lines[x] == rest[x - 1];
    }
    if name != "" && IsNamed(lines, from + 1, name) {
      var j: nat :| from + 1 <= j < |lines| && lines[j].Mutex? && lines[j].name == name && AllBlank(lines, from + 1, j);
      assert rest[j - 1] == lines[j] && AllBlank(rest, from, j - 1);
    }
    if name != "" && IsNamed(rest, from, name) {
      var j: nat :| from <= j < |rest| && rest[j].Mutex? && rest[j].name == name && AllBlank(rest, from, j);
      assert lines[j + 1] == rest[j] && AllBlank(lines, from + 1, j + 1);
    }
    if name == "" && IsNamed(lines, from + 1, name) {
      forall j: nat | from <= j < |rest| && rest[j].Mutex?
        ensures !AllBlank(rest, from, j)
      {
        assert lines[j + 1] == rest[j];
      }
    }
    if name == "" && IsNamed(rest, from, name) {
      forall j: nat | from + 1 <= j < |lines| && lines[j].Mutex?
        ensures !AllBlank(lines, from + 1, j)
      {
        assert rest[j - 1] == lines[j];
      }
    }
  }

  lemma {:induction false} NameExactly(lines: seq<Line>, name: string)
    ensures NameAfter(lines) == name <==> IsNamed(lines, 0, name)
  {
    if lines != [] {
      if lines[0].Blank? {
        NameExactly(lines[1..], name);
        NamedLater(lines, 0, name);
        BlankFirst(lines, name);
      } else {
        assert AllBlank(lines, 0, 0);
        assert forall j: nat | 0 < j < |lines| :: AllBlank(lines, 0, j) ==> lines[0].Blank?;
      }
    }
  }

  lemma BlankFirst(lines: seq<Line>, name: string)
    requires lines != [] && lines[0].Blank?
    ensures IsNamed(lines, 0, name) <==> IsNamed(lines, 1, name)
  {
    assert forall j: nat | 1 <= j < |lines| :: AllBlank(lines, 0, j) <==> AllBlank(lines, 1, j);
  }

  lemma InsideLater(lines: seq<Line>, i: nat, inSection: bool)
    requires i + 1 < |lines|
    ensures IsInside(lines, i + 1, inSection)
            <==> IsInside(lines[1..], i, if lines[0].Section? then lines[0].semaphores else inSection)
  {
    var rest := lines[1..];
    assert forall x | 0 <= x < |rest| :: rest[x] == lines[x + 1];
    if h: nat :| h < i + 1 && lines[h] == Section(true) && forall x | h < x < i + 1 :: !lines[x].Section? {
      if h > 0 {
        assert rest[h - 1] == Section(true) && forall x | h - 1 < x < i :: !rest[x].Section?;
      }
    }
    if h: nat :| h < i && rest[h] == Section(true) && forall x | h < x < i :: !rest[x].Section? {
      assert lines[h + 1] == Section(true);
      forall x | h + 1 < x < i + 1
        ensures !lines[x].Section?
      {
        assert lines[x] == rest[x - 1];
      }
    }
    if forall x | 0 <= x < i :: !rest[x].Section? {
      forall x | 0 < x < i + 1
        ensures !lines[x].Section?
      {
        assert lines[x] == rest[x - 1];
      }
    }
  }

  /** A site is in the breakdown if and only if a thread of the section waits there, for the mutex that the next line
      names, blank ones aside. */
  lemma {:induction false} SitesExactly(lines: seq<Line>, inSection: bool, s: Site)
    ensures s in Sites(lines, inSection) <==> exists i: nat :: WaitsAt(lines, i, inSection, s)
  {
    if lines != [] {
      var rest, inside := lines[1..], if lines[0].Section? then lines[0].semaphores else inSection;
      SitesExactly(rest, inside, s);
      NameExactly(rest, s.mutex);
      NamedLater(lines, 0, s.mutex);
      forall i: nat | i + 1 < |lines|
        ensures WaitsAt(lines, i + 1, inSection, s) <==> WaitsAt(rest, i, inside, s)
      {
        NamedLater(lines, i + 1, s.mutex);
        InsideLater(lines, i, inSection);
      }
      FirstWaits(lines, inSection, inside, s);
    }
  }

  lemma FirstWaits(lines: seq<Line>, inSection: bool, inside: bool, s: Site)
    requires lines != []
    requires forall i: nat | i + 1 < |lines| ::
               WaitsAt(lines, i + 1, inSection, s) <==> WaitsAt(lines[1..], i, inside, s)
    ensures (exists i: nat :: WaitsAt(lines, i, inSection, s))
            <==> WaitsAt(lines, 0, inSection, s) || exists i: nat :: WaitsAt(lines[1..], i, inside, s)
  {
    if i: nat :| WaitsAt(lines, i, inSection, s) {
      if i > 0 {
        assert WaitsAt(lines, (i - 1) + 1, inSection, s) <==> WaitsAt(lines[1..], i - 1, inside, s);
      }
    }
    if i: nat :| WaitsAt(lines[1..], i, inside, s) {
      assert WaitsAt(lines, i + 1, inSection, s);
    }
  }

  // The scan.

  /** The map holds the multiplicities of `m`, all of them positive. */
  ghost predicate Tallies(counts: map<Site, nat>, m: multiset<Site>) {
    forall s :: (s in counts <==> s in m) && (s in counts ==> counts[s] == m[s])
  }

  function Increment(counts: map<Site, nat>, s: Site): map<Site, nat> {
    counts[s := (if s in counts then counts[s] else 0) + 1]
  }

  lemma IncrementTallies(counts: map<Site, nat>, m: multiset<Site>, s: Site)
    requires Tallies(counts, m)
    ensures Tallies(Increment(counts, s), m + multiset{s})
  {
  }

  /** Moves one wait from the nameless site to the named one. */
  method Upgrade(counts: map<Site, nat>, pending: Site, name: Name, ghost m: multiset<Site>)
    returns (out: map<Site, nat>)
    requires Tallies(counts, m) && pending in m
    ensures Tallies(out, m - multiset{pending} + multiset{pending.(mutex := name)})
  {
    out := counts;
    if pending in out && out[pending] > 0 {
      out := out[pending := out[pending] - 1];
      if out[pending] == 0 {
        out := out - {pending};
      }
    }
    assert Tallies(out, m - multiset{pending});
    IncrementTallies(out, m - multiset{pending}, pending.(mutex := name));
    out := Increment(out, pending.(mutex := name));
  }

  /** The sites once the open thread, if any, has been named by what follows. */
  function Settled(m: multiset<Site>, open: Option<Site>, rest: seq<Line>, inSection: bool): multiset<Site> {
    Sites(rest, inSection) +
    match open
    case None => m
    case Some(p) => m - multiset{p} + multiset{p.(mutex := NameAfter(rest))}
  }

  /** An open thread is counted without a name, inside the section. */
  ghost predicate IsOpen(m: multiset<Site>, open: Option<Site>, inSection: bool) {
    open.Some? ==> inSection && open.value in m && open.value.mutex == ""
  }

  lemma SectionSettles(m: multiset<Site>, open: Option<Site>, rest: seq<Line>, inSection: bool)
    requires IsOpen(m, open, inSection) && rest != [] && rest[0].Section?
    ensures Settled(m, open, rest, inSection) == Settled(m, None, rest[1..], rest[0].semaphores)
  {
  }

  lemma WaitedSettles(m: multiset<Site>, open: Option<Site>, rest: seq<Line>)
    requires IsOpen(m, open, true) && rest != [] && rest[0].Waited?
    ensures var p := Site(rest[0].file, rest[0].lineNo, "");
            Settled(m, open, rest, true) == Settled(m + multiset{p}, Some(p), rest[1..], true)
  {
    var p := Site(rest[0].file, rest[0].lineNo, "");
    assert m + multiset{p} - multiset{p} == m;
  }

  lemma MutexSettles(m: multiset<Site>, p: Site, rest: seq<Line>)
    requires IsOpen(m, Some(p), true) && rest != [] && rest[0].Mutex?
    ensures Settled(m, Some(p), rest, true)
            == Settled(m - multiset{p} + multiset{p.(mutex := rest[0].name)}, None, rest[1..], true)
  {
  }

  /** Blank lines keep a thread open, other lines leave it nameless; without one they mean nothing. */
  lemma OtherSettles(m: multiset<Site>, open: Option<Site>, rest: seq<Line>, inSection: bool)
    requires IsOpen(m, open, inSection) && rest != []
    requires rest[0].Blank? || rest[0].Other? || (rest[0].Mutex? && open.None?) || (rest[0].Waited? && !inSection)
    ensures Settled(m, open, rest, inSection)
            == Settled(m, if rest[0].Blank? then open else None, rest[1..], inSection)
  {
  }

  /** What a line does to the open thread, the counts and the number of threads, outside section headings. */
  method ReadLine(line: Line, inSection: bool, pending: Option<Site>, siteCounts: map<Site, nat>, threadWaited: nat,
                  ghost m: multiset<Site>, ghost rest: seq<Line>)
    returns (open: Option<Site>, counts: map<Site, nat>, waited: nat, ghost m': multiset<Site>)
    requires rest != [] && rest[0] == line && !line.Section?
    requires Tallies(siteCounts, m) && threadWaited == |m| && IsOpen(m, pending, inSection)
    ensures Tallies(counts, m') && waited == |m'| && IsOpen(m', open, inSection)
    ensures Settled(m', open, rest[1..], inSection) == Settled(m, pending, rest, inSection)
  {
    open, counts, waited, m' := None, siteCounts, threadWaited, m;
    if line.Waited? && inSection {
      WaitedSettles(m, pending, rest);
      var p := Site(line.file, line.lineNo, "");
      IncrementTallies(siteCounts, m, p);
      open, counts, waited, m' := Some(p), Increment(siteCounts, p), threadWaited + 1, m + multiset{p};
    } else if line.Mutex? && pending.Some? {
      MutexSettles(m, pending.value, rest);
      counts := Upgrade(siteCounts, pending.value, line.name, m);
      m' := m - multiset{pending.value} + multiset{pending.value.(mutex := line.name)};
    } else {
      OtherSettles(m, pending, rest, inSection);
      if line.Blank? {
        open := pending;
      }
    }
  }

  method Scan(lines: seq<Line>) returns (threadWaited: nat, siteCounts: map<Site, nat>, anySectionSeen: bool)
    ensures Tallies(siteCounts, Sites(lines, false)) && threadWaited == |Sites(lines, false)|
    ensures anySectionSeen <==> exists i | 0 <= i < |lines| :: lines[i].Section?
  {
    var inSection := false;
    threadWaited, siteCounts, anySectionSeen := 0, map[], false;
    var pending: Option<Site> := None;
    ghost var m: multiset<Site> := multiset{};
    assert lines[0..] == lines;
    for i := 0 to |lines|
      invariant Tallies(siteCounts, m) && threadWaited == |m| && IsOpen(m, pending, inSection)
      invariant Settled(m, pending, lines[i..], inSection) == Sites(lines, false)
      invariant anySectionSeen <==> exists j | 0 <= j < i :: lines[j].Section?
    {
      ghost var rest := lines[i..];
      assert rest[1..] == lines[i + 1..];
      if lines[i].Section? {
        SectionSettles(m, pending, rest, inSection);
        pending, inSection, anySectionSeen := None, lines[i].semaphores, true;
      } else {
        pending, siteCounts, threadWaited, m :=
          ReadLine(lines[i], inSection, pending, siteCounts, threadWaited, m, rest);
      }
    }
    EndSettles(m, pending, lines[|lines|..], inSection);
  }

  lemma EndSettles(m: multiset<Site>, open: Option<Site>, rest: seq<Line>, inSection: bool)
    requires IsOpen(m, open, inSection) && rest == []
    ensures Settled(m, open, rest, inSection) == m
  {
  }

  // The sorted list.

  predicate Before(a: SiteCount, b: SiteCount) {
    if a.waits != b.waits then a.waits > b.waits
    else if a.site.file != b.site.file then StringLess(a.site.file, b.site.file)
    else if a.site.lineNo != b.site.lineNo then a.site.lineNo < b.site.lineNo
    else StringLess(a.site.mutex, b.site.mutex)
  }

  lemma BeforeIsOrder(all: set<SiteCount>)
    ensures StrictOrder(Before) && TotalOn(Before, all)
  {
    forall a: SiteCount
      ensures !Before(a, a)
    {
      StringTotal(a.site.mutex, a.site.mutex);
    }
    forall a: SiteCount, b: SiteCount, c: SiteCount | Before(a, b) && Before(b, c)
      ensures Before(a, c)
    {
      BeforeTransitive(a, b, c);
    }
    forall a: SiteCount, b: SiteCount
      ensures a == b || Before(a, b) || Before(b, a)
    {
      StringTotal(a.site.file, b.site.file);
      StringTotal(a.site.mutex, b.site.mutex);
    }
  }

  lemma BeforeTransitive(a: SiteCount, b: SiteCount, c: SiteCount)
    requires Before(a, b) && Before(b, c)
    ensures Before(a, c)
  {
    StringTotal(a.site.file, b.site.file);
    if StringLess(a.site.file, b.site.file) && StringLess(b.site.file, c.site.file) {
      StringTransitive(a.site.file, b.site.file, c.site.file);
      StringTotal(a.site.file, c.site.file);
    }
    if StringLess(a.site.mutex, b.site.mutex) && StringLess(b.site.mutex, c.site.mutex) {
      StringTransitive(a.site.mutex, b.site.mutex, c.site.mutex);
    }
  }

  function Rows(m: multiset<Site>): set<SiteCount> {
    set s | s in m :: SiteCount(s, m[s])
  }

  ghost predicate Lists(m: multiset<Site>, sites: seq<SiteCount>) {
    Sorted(sites, Before) && Elements(sites) == Rows(m)
  }

  /** Most waits first; of equal numbers by file, then by line, then by mutex. */
  ghost predicate Ranks(sites: seq<SiteCount>) {
    forall i, j | 0 <= i < j < |sites| ::
      var a, b := sites[i].site, sites[j].site;
      && sites[i].waits >= sites[j].waits
      && (sites[i].waits == sites[j].waits ==>
            && (a.file == b.file || StringLess(a.file, b.file))
            && (a.file == b.file ==> a.lineNo <= b.lineNo && (a.lineNo == b.lineNo ==> StringLess(a.mutex, b.mutex))))
  }

  lemma ListRanks(m: multiset<Site>, sites: seq<SiteCount>)
    requires Lists(m, sites)
    ensures Ranks(sites)
    ensures forall i | 0 <= i < |sites| :: sites[i].waits == m[sites[i].site] > 0
    ensures forall s | s in m :: exists i | 0 <= i < |sites| :: sites[i].site == s
  {
    assert forall i, j | 0 <= i < j < |sites| :: Before(sites[i], sites[j]);
    assert forall i | 0 <= i < |sites| :: sites[i] in Elements(sites);
    forall s | s in m
      ensures exists i | 0 <= i < |sites| :: sites[i].site == s
    {
      assert SiteCount(s, m[s]) in Rows(m) && SiteCount(s, m[s]) in Elements(sites);
    }
  }

  /** The list depends neither on the order in which the map is read nor on the sorting method. */
  lemma ListIsUnique(m: multiset<Site>, a: seq<SiteCount>, b: seq<SiteCount>)
    requires Lists(m, a) && Lists(m, b)
    ensures a == b
  {
    BeforeIsOrder({});
    SortedUnique(a, b, Before);
  }

  method Materialise(siteCounts: map<Site, nat>, ghost m: multiset<Site>) returns (sites: seq<SiteCount>, siteSum: nat)
    requires Tallies(siteCounts, m)
    ensures Lists(m, sites) && siteSum == |m|
  {
    sites, siteSum := [], 0;
    var keys := AnyOrder(siteCounts.Keys);
    ghost var left := m;
    for k := 0 to |keys|
      invariant |sites| == k && forall j | 0 <= j < k :: sites[j] == SiteCount(keys[j], m[keys[j]])
      invariant forall s :: left[s] == if s in keys[..k] then 0 else m[s]
      invariant siteSum + |left| == |m|
    {
      assert keys[k] in Elements(keys) && keys[k] !in keys[..k];
      assert keys[..k + 1] == keys[..k] + [keys[k]];
      sites := sites + [SiteCount(keys[k], siteCounts[keys[k]])];
      siteSum := siteSum + siteCounts[keys[k]];
      left := left[keys[k] := 0];
    }
    NothingLeft(keys, m, left);
    RowsListed(keys, m, sites);
    BeforeIsOrder(Elements(sites));
    SortIsSorted(sites, Before);
    sites := Sort(sites, Before);
  }

  lemma NothingLeft(keys: seq<Site>, m: multiset<Site>, left: multiset<Site>)
    requires forall s | s in m :: s in Elements(keys)
    requires forall s :: left[s] == if s in keys[..|keys|] then 0 else m[s]
    ensures |left| == 0
  {
    assert keys[..|keys|] == keys;
    assert left == multiset{};
  }

  lemma RowsListed(keys: seq<Site>, m: multiset<Site>, sites: seq<SiteCount>)
    requires Distinct(keys) && (forall s :: s in m <==> s in Elements(keys))
    requires |sites| == |keys| && forall j | 0 <= j < |keys| :: sites[j] == SiteCount(keys[j], m[keys[j]])
    ensures Distinct(sites) && Elements(sites) == Rows(m)
  {
    forall r | r in Rows(m)
      ensures r in Elements(sites)
    {
      assert r.site in Elements(keys);
      var j :| 0 <= j < |keys| && keys[j] == r.site;
      assert sites[j] == r;
    }
    forall j | 0 <= j < |sites|
      ensures sites[j] in Rows(m)
    {
      assert keys[j] in Elements(keys);
    }
  }

  /** For all lines: the threads are counted, the breakdown pairs each with its mutex, and the two always agree. */
  method ParseInnodbStatus(lines: seq<Line>) returns (r: Report)
    ensures r.threads == Threads(lines, false)
    ensures Lists(Sites(lines, false), r.sites) && Ranks(r.sites)
    ensures forall i | 0 <= i < |r.sites| :: r.sites[i].waits == Sites(lines, false)[r.sites[i].site] > 0
    ensures !r.mismatch
    ensures r.noSections <==> forall i | 0 <= i < |lines| :: !lines[i].Section?
  {
    var threadWaited, siteCounts, anySectionSeen := Scan(lines);
    var sites, siteSum := Materialise(siteCounts, Sites(lines, false));
    OneSitePerThread(lines, false);
    ListRanks(Sites(lines, false), sites);
    r := Report(threadWaited, sites, !anySectionSeen, siteSum != threadWaited);
  }
}
