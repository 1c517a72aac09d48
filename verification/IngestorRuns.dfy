/**
  Whole runs of the ingestor against a growing chain of final blocks: polls with any page size, failed
  transactions and restarts, and a node that returns the logs of a page in any order.
 */
module IngestorRuns {
  import opened Ingestor

  // --- The chain and the node ------------------------------------------------------------------

  /** Block b is `chain[b]`. */
  type Chain = seq<seq<Log>>

  ghost predicate Numbered(chain: Chain, first: nat)
  {
    forall b, i :: 0 <= b < |chain| && 0 <= i < |chain[b]| ==> chain[b][i].block == first + b
  }

  /** The logs of a block that match the topic filter. */
  function Matching(logs: seq<Log>): seq<Log>
  {
    if logs == [] then []
    else (if logs[0].topic != Other then [logs[0]] else []) + Matching(logs[1..])
  }

  /** The matching logs of the blocks lo..hi that exist. */
  function LogsBetween(chain: Chain, lo: nat, hi: nat): seq<Log>
    decreases hi
  {
    if hi < lo then []
    else if hi == 0 then (if 0 < |chain| then Matching(chain[0]) else [])
    else LogsBetween(chain, lo, hi - 1) + (if hi < |chain| then Matching(chain[hi]) else [])
  }

  /** The node may return the logs of a page in any order. */
  ghost predicate NodeAnswers(chain: Chain, from: nat, to: nat, logs: seq<Log>)
  {
    multiset(logs) == multiset(LogsBetween(chain, from, to))
  }

  // --- Runs ------------------------------------------------------------------------------------

  datatype World = World(chain: Chain, db: Db)

  datatype Event =
    | Grow(blocks: seq<seq<Log>>)
    | Poll(page: nat, logs: seq<Log>, faults: Faults)

  function Apply(c: Contracts, w: World, ev: Event): World
  {
    match ev
    case Grow(blocks) => w.(chain := w.chain + blocks)
    case Poll(page, logs, faults) => w.(db := Ingest(c, w.db, Page(w.db, page).0, logs, faults))
  }

  /** Pages are positive and block numbers stay clear of the end of the 64-bit range. */
  ghost predicate Legal(w: World, ev: Event)
  {
    match ev
    case Grow(blocks) => Numbered(blocks, |w.chain|)
    case Poll(page, logs, _) =>
      && 0 < page
      && LastBlock(w.db) + page < MOD64
      && NodeAnswers(w.chain, Page(w.db, page).0, Page(w.db, page).1, logs)
  }

  function Exec(c: Contracts, w: World, run: seq<Event>): World
    decreases |run|
  {
    if run == [] then w else Apply(c, Exec(c, w, run[..|run| - 1]), run[|run| - 1])
  }

  ghost predicate LegalRun(c: Contracts, w: World, run: seq<Event>)
    decreases |run|
  {
    if run == [] then Numbered(w.chain, 0)
    else LegalRun(c, w, run[..|run| - 1]) && Legal(Exec(c, w, run[..|run| - 1]), run[|run| - 1])
  }

  /**
    A run against a real connection: every poll goes through the polling loop's turn, whose node answer
    and failures the run gives, and the chain grows in between. The database ends as the run says.
   */
  method Replay(conn: Connection, c: Contracts, start: Chain, run: seq<Event>) returns (chain: Chain)
    requires LegalRun(c, World(start, conn.Contents()), run)
    modifies conn
    ensures World(chain, conn.Contents()) == Exec(c, World(start, old(conn.Contents())), run)
  {
    chain := start;
    ghost var w := World(start, conn.Contents());
    for i := 0 to |run|
      invariant World(chain, conn.Contents()) == Exec(c, w, run[..i])
    {
      hide Ingest, LogsBetween;
      LegalPrefix(c, w, run, i + 1);
      assert run[..i + 1][..i] == run[..i];
      match run[i] {
        case Grow(blocks) =>
          chain := chain + blocks;
        case Poll(page, logs, faults) =>
          var ended := conn.Poll(c, page, (from, to) => logs, faults);
      }
    }
    assert run[..|run|] == run;
  }

  lemma {:induction false} LegalPrefix(c: Contracts, w: World, run: seq<Event>, k: nat)
    requires LegalRun(c, w, run) && k <= |run|
    ensures LegalRun(c, w, run[..k])
    decreases |run| - k
  {
    if k < |run| {
      LegalPrefix(c, w, run, k + 1);
      assert run[..k + 1][..k] == run[..k];
    } else {
      assert run[..k] == run;
    }
  }

  // --- Rows ------------------------------------------------------------------------------------

  /** How often a row is stored depends on how often its log occurs, not on where. */
  lemma {:induction false} RowCount(c: Contracts, logs: seq<Log>, r: Row)
    ensures multiset(RowsOf(c, logs))[r] == if Decide(c, r.log) == Store(r.table) then multiset(logs)[r.log] else 0
  {
    if logs != [] {
      var init, last := logs[..|logs| - 1], logs[|logs| - 1];
      assert logs == init + [last];
      RowCount(c, init, r);
    }
  }

  lemma OrderIrrelevant(c: Contracts, a: seq<Log>, b: seq<Log>)
    requires multiset(a) == multiset(b)
    ensures multiset(RowsOf(c, a)) == multiset(RowsOf(c, b))
  {
    forall r: Row ensures multiset(RowsOf(c, a))[r] == multiset(RowsOf(c, b))[r] {
      RowCount(c, a, r);
      RowCount(c, b, r);
    }
  }

  lemma {:induction false} RowsConcat(c: Contracts, a: seq<Log>, b: seq<Log>)
    ensures RowsOf(c, a + b) == RowsOf(c, a) + RowsOf(c, b)
    decreases |b|
  {
    if b == [] {
      assert a + b == a;
    } else {
      assert (a + b)[..|a + b| - 1] == a + b[..|b| - 1];
      RowsConcat(c, a, b[..|b| - 1]);
    }
  }

  lemma LogsInRange(chain: Chain, lo: nat, hi: nat, l: Log)
    requires Numbered(chain, 0) && 0 < lo && l in LogsBetween(chain, lo, hi)
    ensures lo <= l.block <= hi && l.block < |chain| && l in Matching(chain[l.block])
  {
    hide LogsBetween, Matching;
    assert l in multiset(LogsBetween(chain, lo, hi));
    RangeCount(chain, lo, hi, l);
    BlockCount(chain, l.block, l);
    assert l in multiset(Matching(chain[l.block]));
  }

  lemma {:induction false} LogsSplit(chain: Chain, lo: nat, mid: nat, hi: nat)
    requires lo <= mid + 1 && mid <= hi
    ensures LogsBetween(chain, lo, hi) == LogsBetween(chain, lo, mid) + LogsBetween(chain, mid + 1, hi)
    decreases hi
  {
    hide LogsBetween;
    if mid < hi {
      LogsStep(chain, lo, hi);
      LogsStep(chain, mid + 1, hi);
      LogsSplit(chain, lo, mid, hi - 1);
    } else {
      NothingBetween(chain, hi);
    }
  }

  lemma {:induction false} GrowthKeepsLogs(chain: Chain, more: Chain, lo: nat, hi: nat)
    requires hi < |chain|
    ensures LogsBetween(chain + more, lo, hi) == LogsBetween(chain, lo, hi)
    decreases hi
  {
    if hi > 0 {
      GrowthKeepsLogs(chain, more, lo, hi - 1);
    }
  }

  // --- The running maximum ---------------------------------------------------------------------

  lemma {:induction false} HighestIsMaximum(from: nat, logs: seq<Log>)
    requires forall l :: l in logs ==> from <= l.block
    ensures Highest(from, logs).1 <==> logs != []
    ensures from <= Highest(from, logs).0
    ensures forall l :: l in logs ==> l.block <= Highest(from, logs).0
    ensures logs != [] ==> exists l :: l in logs && l.block == Highest(from, logs).0
  {
    if logs != [] {
      var init, last := logs[..|logs| - 1], logs[|logs| - 1];
      assert logs == init + [last];
      HighestIsMaximum(from, init);
      assert last in logs;
      if init != [] {
        var l :| l in init && l.block == Highest(from, init).0;
        assert l in logs;
      }
    }
  }

  /** Nothing of a page lies above its highest log. */
  lemma PageEndsAtHighest(chain: Chain, lo: nat, hi: nat, top: nat)
    requires Numbered(chain, 0) && lo <= top + 1 && top <= hi
    requires forall l :: l in LogsBetween(chain, lo, hi) ==> l.block <= top
    ensures LogsBetween(chain, lo, hi) == LogsBetween(chain, lo, top)
  {
    LogsSplit(chain, lo, top, hi);
    var above := LogsBetween(chain, top + 1, hi);
    if above != [] {
      assert above[0] in LogsBetween(chain, lo, hi);
      LogsInRange(chain, top + 1, hi, above[0]);
      assert false;
    }
  }

  // --- Exactly once ----------------------------------------------------------------------------

  /** The rows added since the start are those of the blocks after the starting checkpoint, up to the current one. */
  ghost predicate StoredExactly(c: Contracts, start: World, w: World)
  {
    var lo, cp := LastBlock(start.db), LastBlock(w.db);
    && Numbered(w.chain, 0)
    && lo <= cp
    && (cp == lo || cp < |w.chain|)
    && multiset(w.db.rows) == multiset(start.db.rows) + multiset(RowsOf(c, LogsBetween(w.chain, lo + 1, cp)))
  }

  /** The checkpoint after a page: its highest log, or where it was if the page is empty. */
  function Top(cp: nat, logs: seq<Log>): nat
  {
    var (biggest, changed) := Highest(cp + 1, logs);
    if changed then biggest else cp
  }

  /** The page is taken up to `top` and holds nothing above it. */
  ghost predicate TakenUpTo(chain: Chain, cp: nat, page: nat, top: nat)
  {
    && cp <= top <= cp + page
    && (top == cp <==> LogsBetween(chain, cp + 1, cp + page) == [])
    && (top != cp ==> top < |chain| && Matching(chain[top]) != [])
    && LogsBetween(chain, cp + 1, cp + page) == LogsBetween(chain, cp + 1, top)
  }

  lemma PageIsTaken(chain: Chain, cp: nat, page: nat, logs: seq<Log>)
    requires Numbered(chain, 0) && NodeAnswers(chain, cp + 1, cp + page, logs)
    ensures TakenUpTo(chain, cp, page, Top(cp, logs))
  {
    hide Highest, LogsBetween;
    var between := LogsBetween(chain, cp + 1, cp + page);
    SameEmptiness(logs, between);
    forall l | l in logs ensures cp < l.block <= cp + page && l.block < |chain| && l in Matching(chain[l.block]) {
      assert l in multiset(logs);
      LogsInRange(chain, cp + 1, cp + page, l);
    }
    HighestIsMaximum(cp + 1, logs);
    if logs == [] {
      NothingBetween(chain, cp);
    } else {
      forall l | l in between ensures l.block <= Top(cp, logs) {
        assert l in multiset(between);
        assert l in logs;
      }
      PageEndsAtHighest(chain, cp + 1, cp + page, Top(cp, logs));
    }
  }

  lemma NothingBetween(chain: Chain, cp: nat)
    ensures LogsBetween(chain, cp + 1, cp) == []
  {
  }

  lemma SameEmptiness(a: seq<Log>, b: seq<Log>)
    requires multiset(a) == multiset(b)
    ensures a == [] <==> b == []
  {
    assert |multiset(a)| == |a| && |multiset(b)| == |b|;
  }

  predicate PollCommits(c: Contracts, w: World, ev: Event)
    requires ev.Poll?
  {
    Commits(c, LastBlock(w.db) + 1, ev.logs, ev.faults)
  }

  /** A legal poll asks for the blocks after the checkpoint, and either commits or changes nothing. */
  lemma PollOutcome(c: Contracts, w: World, ev: Event)
    requires ev.Poll? && Legal(w, ev)
    ensures NodeAnswers(w.chain, LastBlock(w.db) + 1, LastBlock(w.db) + ev.page, ev.logs)
    ensures Apply(c, w, ev).chain == w.chain
    ensures !PollCommits(c, w, ev) ==> Apply(c, w, ev) == w
    ensures PollCommits(c, w, ev) ==>
              && LastBlock(Apply(c, w, ev).db) == Top(LastBlock(w.db), ev.logs)
              && Apply(c, w, ev).db.rows == w.db.rows + RowsOf(c, ev.logs)
  {
    hide Commits, RowsOf, Highest, LogsBetween;
    assert Page(w.db, ev.page) == (LastBlock(w.db) + 1, LastBlock(w.db) + ev.page);
  }

  lemma PollKeepsRows(c: Contracts, start: World, w: World, ev: Event)
    requires ev.Poll? && StoredExactly(c, start, w) && Legal(w, ev)
    ensures StoredExactly(c, start, Apply(c, w, ev))
  {
    hide Apply, Legal, RowsOf, LogsBetween, PollCommits;
    PollOutcome(c, w, ev);
    if PollCommits(c, w, ev) {
      var lo, cp, top := LastBlock(start.db), LastBlock(w.db), Top(LastBlock(w.db), ev.logs);
      PageIsTaken(w.chain, cp, ev.page, ev.logs);
      var a, b := LogsBetween(w.chain, lo + 1, cp), LogsBetween(w.chain, cp + 1, top);
      LogsSplit(w.chain, lo + 1, cp, top);
      RowsConcat(c, a, b);
      OrderIrrelevant(c, ev.logs, b);
      RowsJoin(w.db.rows, start.db.rows, RowsOf(c, a), RowsOf(c, b), RowsOf(c, ev.logs));
    }
  }

  lemma RowsJoin(rows: seq<Row>, first: seq<Row>, a: seq<Row>, b: seq<Row>, b': seq<Row>)
    requires multiset(rows) == multiset(first) + multiset(a)
    requires multiset(b') == multiset(b)
    ensures multiset(rows + b') == multiset(first) + multiset(a + b)
  {
  }

  lemma GrowKeepsRows(c: Contracts, start: World, w: World, blocks: Chain)
    requires StoredExactly(c, start, w) && Legal(w, Grow(blocks))
    ensures StoredExactly(c, start, Apply(c, w, Grow(blocks)))
  {
    var lo, cp := LastBlock(start.db), LastBlock(w.db);
    if cp < |w.chain| {
      GrowthKeepsLogs(w.chain, blocks, lo + 1, cp);
    }
  }

  /**
    Over every run of polls, failed transactions, restarts with other page sizes and chain growth, and
    whatever order the node returns logs in, the database holds exactly one row for each accepted log in
    a block above the starting checkpoint and at or below the current one, and none from later blocks.
   */
  lemma {:induction false} ExactlyOnce(c: Contracts, start: World, run: seq<Event>)
    requires LegalRun(c, start, run)
    ensures StoredExactly(c, start, Exec(c, start, run))
    decreases |run|
  {
    if run == [] {
      assert LogsBetween(start.chain, LastBlock(start.db) + 1, LastBlock(start.db)) == [];
    } else {
      ExactlyOnce(c, start, run[..|run| - 1]);
      var w := Exec(c, start, run[..|run| - 1]);
      match run[|run| - 1]
      case Grow(blocks) => GrowKeepsRows(c, start, w, blocks);
      case Poll(_, _, _) => PollKeepsRows(c, start, w, run[|run| - 1]);
    }
  }

  /**
    A log is refused exactly if its topic is unknown or it does not decode; of the others those from the
    contract the topic belongs to are stored, and exactly those from elsewhere are ignored.
   */
  lemma DecidesExactly(c: Contracts, l: Log)
    ensures Decide(c, l).Refuse? <==> l.topic == Other || !l.decodes
    ensures Decide(c, l).Store? <==> Accepts(c, l)
    ensures Decide(c, l).Ignore? <==> l.topic != Other && l.decodes && !Accepts(c, l)
  {
  }

  /** The logs the ingestor keeps: well-formed ones of a known topic, from the contract the topic belongs to. */
  ghost predicate Accepts(c: Contracts, l: Log)
  {
    && l.decodes
    && (match l.topic
        case Other => false
        case Transfer => true
        case AccountCreated => l.emitter == c.thirdweb
        case CampaignBalanceUpdated => l.emitter == c.leo
        case CampaignCreated => l.emitter == c.leo
        case CampaignUpdated => l.emitter == c.leo
        case _ => l.emitter == c.seawater)
  }

  lemma DecideStoresAccepted(c: Contracts, l: Log)
    requires l.topic != Other
    ensures Decide(c, l) == Store(Table(l.topic)) <==> Accepts(c, l)
    ensures Decide(c, l).Store? ==> Decide(c, l) == Store(Table(l.topic))
  {
  }

  lemma {:induction false} MatchingCount(logs: seq<Log>, l: Log)
    ensures multiset(Matching(logs))[l] == if l.topic != Other then multiset(logs)[l] else 0
  {
    if logs != [] {
      assert logs == [logs[0]] + logs[1..];
      MatchingCount(logs[1..], l);
    }
  }

  lemma BlockCount(chain: Chain, b: nat, l: Log)
    requires Numbered(chain, 0) && b < |chain|
    ensures multiset(Matching(chain[b]))[l]
         == if l.block == b && l.topic != Other then multiset(chain[b])[l] else 0
  {
    MatchingCount(chain[b], l);
    if l in chain[b] {
      assert l.block == b;
    }
  }

  /** A log occurs in a range as often as in its own block, if that block lies in the range. */
  lemma {:induction false} RangeCount(chain: Chain, lo: nat, hi: nat, l: Log)
    requires Numbered(chain, 0) && 0 < lo
    ensures multiset(LogsBetween(chain, lo, hi))[l]
         == if lo <= l.block <= hi && l.block < |chain| && l.topic != Other then multiset(chain[l.block])[l] else 0
    decreases hi
  {
    hide LogsBetween, Matching, Numbered;
    if lo <= hi {
      RangeCount(chain, lo, hi - 1, l);
      LogsStep(chain, lo, hi);
      if hi < |chain| {
        BlockCount(chain, hi, l);
      }
    } else {
      EmptyRange(chain, lo - 1, hi);
    }
  }

  /**
    From an empty database a run stores the accepted logs of the blocks from the first after block zero up
    to the block in the checkpoint row, and nothing as long as there is no such row.
   */
  lemma FreshDatabase(c: Contracts, chain: Chain, run: seq<Event>)
    requires LegalRun(c, World(chain, Db([], Absent)), run)
    ensures var w := Exec(c, World(chain, Db([], Absent)), run);
            match w.db.checkpoint
            case Absent => w.db.rows == []
            case At(b) => multiset(w.db.rows) == multiset(RowsOf(c, LogsBetween(w.chain, 1, b)))
  {
    hide Exec, LegalRun, RowsOf, LogsBetween, Numbered;
    ExactlyOnce(c, World(chain, Db([], Absent)), run);
    NothingBetween(chain, 0);
    var w := Exec(c, World(chain, Db([], Absent)), run);
    if w.db.checkpoint.Absent? {
      NothingBetween(w.chain, 0);
      NoRows(c);
      assert |multiset(w.db.rows)| == 0;
    }
  }

  lemma NoRows(c: Contracts)
    ensures RowsOf(c, []) == []
  {
  }

  /** Characters that tell the table names apart. */
  function Mark(table: string): (nat, char, char, char, char)
    requires |table| > 20
  {
    (|table|, table[7], table[16], table[19], table[20])
  }

  lemma MarkOf(t: Topic)
    requires t != Other
    ensures |Table(t)| > 20 && Mark(Table(t)) ==
      match t
      case Transfer => (21, 'e', 'n', 'e', 'r')
      case AccountCreated => (30, 't', 'a', 'o', 'u')
      case CampaignBalanceUpdated => (33, 'l', 'i', 'b', 'a')
      case CampaignCreated => (26, 'l', 'i', 'c', 'r')
      case CampaignUpdated => (26, 'l', 'i', 'u', 'p')
      case MintPosition => (28, 's', 'm', 't', 'p')
      case BurnPosition => (28, 's', 'b', 'n', 'p')
      case TransferPosition => (32, 's', 't', 'n', 's')
      case UpdatePositionLiquidity => (39, 's', 'u', 'a', 't')
      case CollectFees => (27, 's', 'c', 'l', 'e')
      case NewPool => (23, 's', 'n', 'p', 'o')
      case CollectProtocolFees => (35, 's', 'c', 'l', 'e')
      case Swap2 => (21, 's', 's', 'p', '2')
      case Swap1 => (21, 's', 's', 'p', '1')
  {
  }

  /** Rows of different topics go to different tables. */
  lemma TablesDiffer(t: Topic, u: Topic)
    requires t != Other && u != Other && t != u
    ensures Table(t) != Table(u)
  {
    MarkOf(t);
    MarkOf(u);
    hide Table;
  }

  /** The statement of ExactlyOnce row by row. */
  lemma RowStoredOnce(c: Contracts, start: World, run: seq<Event>, r: Row)
    requires LegalRun(c, start, run)
    ensures var w := Exec(c, start, run);
            var kept := Accepts(c, r.log) && r.table == Table(r.log.topic)
                        && LastBlock(start.db) < r.log.block <= LastBlock(w.db) && r.log.block < |w.chain|;
            multiset(w.db.rows)[r] == multiset(start.db.rows)[r]
              + (if kept then multiset(w.chain[r.log.block])[r.log] else 0)
  {
    ExactlyOnce(c, start, run);
    hide Exec, LegalRun, RowsOf, LogsBetween, Decide, Accepts;
    var w := Exec(c, start, run);
    var logs := LogsBetween(w.chain, LastBlock(start.db) + 1, LastBlock(w.db));
    RowCount(c, logs, r);
    RangeCount(w.chain, LastBlock(start.db) + 1, LastBlock(w.db), r.log);
    RefusesOthers(c, r.log);
    if r.log.topic != Other {
      DecideStoresAccepted(c, r.log);
    }
  }

  lemma RefusesOthers(c: Contracts, l: Log)
    ensures l.topic == Other ==> Decide(c, l) == Refuse && !Accepts(c, l)
  {
  }

  // --- Progress --------------------------------------------------------------------------------

  /** A block that holds a log the ingestor asks for. */
  predicate Bearing(chain: Chain, b: nat)
  {
    b < |chain| && Matching(chain[b]) != []
  }

  /** Some block after `lo` and up to `hi` bears logs. */
  ghost predicate BearingWithin(chain: Chain, lo: nat, hi: nat)
  {
    exists b :: lo < b <= hi && Bearing(chain, b)
  }

  lemma {:induction false} BearingInRange(chain: Chain, lo: nat, hi: nat)
    ensures LogsBetween(chain, lo + 1, hi) != [] <==> BearingWithin(chain, lo, hi)
    decreases hi
  {
    hide LogsBetween, BearingWithin;
    if lo < hi {
      BearingInRange(chain, lo, hi - 1);
      BearingStep(chain, lo, hi);
      LogsStep(chain, lo + 1, hi);
    } else {
      EmptyRange(chain, lo, hi);
    }
  }

  lemma EmptyRange(chain: Chain, lo: nat, hi: nat)
    requires hi <= lo
    ensures LogsBetween(chain, lo + 1, hi) == [] && !BearingWithin(chain, lo, hi)
  {
  }

  lemma LogsStep(chain: Chain, lo: nat, hi: nat)
    requires lo <= hi && 0 < hi
    ensures LogsBetween(chain, lo, hi) == LogsBetween(chain, lo, hi - 1) + (if hi < |chain| then Matching(chain[hi]) else [])
  {
  }

  lemma BearingStep(chain: Chain, lo: nat, hi: nat)
    requires lo < hi
    ensures BearingWithin(chain, lo, hi) <==> BearingWithin(chain, lo, hi - 1) || Bearing(chain, hi)
  {
  }

  /** A committed poll moves the checkpoint exactly when its page holds a log-bearing block. */
  lemma PollAdvances(c: Contracts, w: World, ev: Event)
    requires Numbered(w.chain, 0) && ev.Poll? && Legal(w, ev) && PollCommits(c, w, ev)
    ensures var cp, next := LastBlock(w.db), LastBlock(Apply(c, w, ev).db);
            && cp <= next
            && (cp < next <==> BearingWithin(w.chain, cp, cp + ev.page))
            && (cp < next ==> Bearing(w.chain, next))
  {
    hide Apply, Legal, LogsBetween, PollCommits, BearingWithin;
    var cp := LastBlock(w.db);
    PollOutcome(c, w, ev);
    PageIsTaken(w.chain, cp, ev.page, ev.logs);
    BearingInRange(w.chain, cp, cp + ev.page);
  }

  /** The checkpoint the run starts from, or a log-bearing block it may stop at. */
  ghost predicate StopsAt(chain: Chain, start: nat, at: nat)
  {
    at == start || Bearing(chain, at)
  }

  /** From the checkpoint and from every log-bearing block before `last`, another one is at most a page away. */
  ghost predicate NoWideGap(chain: Chain, start: nat, last: nat, page: nat)
  {
    forall at :: start <= at < last && StopsAt(chain, start, at) ==>
      BearingWithin(chain, at, if at + page < last then at + page else last)
  }

  ghost function BearingAfter(chain: Chain, cp: nat, last: nat): set<nat>
  {
    set b | cp < b <= last && Bearing(chain, b)
  }

  predicate NoFaults(faults: Faults)
  {
    faults.inserts == {} && !faults.checkpoint && !faults.commit
  }

  /** The database fails in no poll of the run, and the pages have at least the given size. */
  predicate Healthy(run: seq<Event>, page: nat)
  {
    forall i :: 0 <= i < |run| && run[i].Poll? ==> page <= run[i].page && NoFaults(run[i].faults)
  }

  /** Every log the ingestor asks for, in the blocks after `lo`, decodes. */
  ghost predicate Decodable(chain: Chain, lo: nat)
  {
    forall b, l :: lo < b < |chain| && l in Matching(chain[b]) ==> l.decodes
  }

  /** Without database faults a page commits exactly if all its logs are known and decode, whoever emitted them. */
  lemma CommitsExactly(c: Contracts, from: nat, logs: seq<Log>, faults: Faults)
    requires NoFaults(faults)
    ensures Commits(c, from, logs, faults) <==> forall l :: l in logs ==> l.topic != Other && l.decodes
  {
    hide Highest, Decide;
    forall i | 0 <= i < |logs| ensures Fails(c, logs, faults, i) <==> logs[i].topic == Other || !logs[i].decodes {
      DecidesExactly(c, logs[i]);
    }
    hide Fails;
  }

  /** A poll without database faults commits exactly if every log of its page decodes, whoever emitted it. */
  lemma PollCommitsExactly(c: Contracts, w: World, ev: Event)
    requires Numbered(w.chain, 0) && ev.Poll? && Legal(w, ev) && NoFaults(ev.faults)
    ensures PollCommits(c, w, ev) <==>
              forall l :: l in LogsBetween(w.chain, LastBlock(w.db) + 1, LastBlock(w.db) + ev.page) ==> l.decodes
  {
    hide Commits, LogsBetween, Apply, RowsOf, Highest;
    var cp := LastBlock(w.db);
    var between := LogsBetween(w.chain, cp + 1, cp + ev.page);
    PollOutcome(c, w, ev);
    CommitsExactly(c, cp + 1, ev.logs, ev.faults);
    forall l ensures l in ev.logs <==> l in between {
      assert l in multiset(ev.logs) <==> l in multiset(between);
    }
    forall l | l in between ensures l.topic != Other {
      LogsInRange(w.chain, cp + 1, cp + ev.page, l);
      MatchingKnown(w.chain[l.block], l);
    }
  }

  lemma {:induction false} MatchingKnown(logs: seq<Log>, l: Log)
    requires l in Matching(logs)
    ensures l.topic != Other
  {
    if l in Matching(logs[1..]) {
      MatchingKnown(logs[1..], l);
    }
  }

  function Polls(run: seq<Event>): nat
    decreases |run|
  {
    if run == [] then 0 else Polls(run[..|run| - 1]) + (if run[|run| - 1].Poll? then 1 else 0)
  }

  lemma {:induction false} BlocksStay(c: Contracts, start: World, run: seq<Event>)
    requires LegalRun(c, start, run)
    ensures start.chain <= Exec(c, start, run).chain
    decreases |run|
  {
    if run != [] {
      BlocksStay(c, start, run[..|run| - 1]);
    }
  }

  ghost predicate OnTrack(start: World, w: World, last: nat, polls: nat)
  {
    var lo, cp := LastBlock(start.db), LastBlock(w.db);
    && start.chain <= w.chain
    && lo <= cp && StopsAt(w.chain, lo, cp)
    && (last <= cp || |BearingAfter(start.chain, cp, last)| + polls <= |BearingAfter(start.chain, lo, last)|)
  }

  lemma PollStaysOnTrack(c: Contracts, start: World, w: World, last: nat, page: nat, polls: nat, ev: Event)
    requires OnTrack(start, w, last, polls) && Numbered(w.chain, 0)
    requires last < |start.chain| && NoWideGap(start.chain, LastBlock(start.db), last, page)
    requires ev.Poll? && Legal(w, ev) && PollCommits(c, w, ev) && page <= ev.page
    ensures OnTrack(start, Apply(c, w, ev), last, polls + 1)
    ensures LastBlock(w.db) < last ==> LastBlock(w.db) < LastBlock(Apply(c, w, ev).db)
  {
    hide Apply, Legal, PollCommits, BearingAfter;
    var cp, next := LastBlock(w.db), LastBlock(Apply(c, w, ev).db);
    PollOutcome(c, w, ev);
    PollAdvances(c, w, ev);
    if cp < last {
      assert StopsAt(start.chain, LastBlock(start.db), cp);
      WiderWindow(start.chain, w.chain, cp, if cp + page < last then cp + page else last, cp + ev.page);
      if next < last {
        FewerToGo(start.chain, cp, next, last);
      }
    }
  }

  lemma WiderWindow(chain: Chain, longer: Chain, lo: nat, hi: nat, wider: nat)
    requires chain <= longer && hi <= wider && BearingWithin(chain, lo, hi)
    ensures BearingWithin(longer, lo, wider)
  {
    var b :| lo < b <= hi && Bearing(chain, b);
    assert Bearing(longer, b);
  }

  lemma FewerToGo(chain: Chain, cp: nat, next: nat, last: nat)
    requires cp < next <= last && Bearing(chain, next)
    ensures |BearingAfter(chain, next, last)| + 1 <= |BearingAfter(chain, cp, last)|
  {
    var before, after := BearingAfter(chain, cp, last), BearingAfter(chain, next, last);
    assert next in before && next !in after;
    SubsetSize(after + {next}, before);
  }

  lemma {:induction false} SubsetSize(a: set<nat>, b: set<nat>)
    requires a <= b
    ensures |a| <= |b|
    decreases a
  {
    if a != {} {
      var x :| x in a;
      SubsetSize(a - {x}, b - {x});
    }
  }

  lemma DecodablePage(c: Contracts, w: World, ev: Event, lo: nat)
    requires Numbered(w.chain, 0) && ev.Poll? && Legal(w, ev) && NoFaults(ev.faults)
    requires Decodable(w.chain, lo) && lo <= LastBlock(w.db)
    ensures PollCommits(c, w, ev)
  {
    hide LogsBetween, Legal, PollCommits, NoFaults;
    var cp := LastBlock(w.db);
    PollCommitsExactly(c, w, ev);
    forall l | l in LogsBetween(w.chain, cp + 1, cp + ev.page) ensures l.decodes {
      LogsInRange(w.chain, cp + 1, cp + ev.page, l);
    }
  }

  /**
    If log-bearing blocks up to `last` are never more than a page apart and every log on the chain
    decodes, every poll before `last` that the database does not fail advances the checkpoint, and
    `last` is reached within as many polls as there are log-bearing blocks to go.
   */
  lemma {:induction false} ReachesLastLog(c: Contracts, start: World, run: seq<Event>, last: nat, page: nat)
    requires LegalRun(c, start, run) && Healthy(run, page)
    requires Decodable(Exec(c, start, run).chain, LastBlock(start.db))
    requires last < |start.chain| && NoWideGap(start.chain, LastBlock(start.db), last, page)
    ensures OnTrack(start, Exec(c, start, run), last, Polls(run))
    ensures Bearing(start.chain, last) && |BearingAfter(start.chain, LastBlock(start.db), last)| <= Polls(run) ==>
              last <= LastBlock(Exec(c, start, run).db)
    decreases |run|
  {
    hide Apply, Legal, PollCommits, BearingAfter, NoFaults;
    if run != [] {
      var init, ev := run[..|run| - 1], run[|run| - 1];
      var w := Exec(c, start, init);
      OneStepGrows(c, w, ev);
      assert Decodable(w.chain, LastBlock(start.db));
      ReachesLastLog(c, start, init, last, page);
      ExactlyOnce(c, start, init);
      if ev.Poll? {
        DecodablePage(c, w, ev, LastBlock(start.db));
        PollStaysOnTrack(c, start, w, last, page, Polls(init), ev);
      } else {
        GrowthOutcome(c, w, ev);
      }
    }
    LastIsToGo(start.chain, LastBlock(Exec(c, start, run).db), last);
  }

  lemma OneStepGrows(c: Contracts, w: World, ev: Event)
    ensures w.chain <= Apply(c, w, ev).chain
  {
  }

  /**
    A log of a known topic that does not decode is never passed: whatever the page sizes, the failures and
    the growth, no run moves the checkpoint to its block.
   */
  lemma {:induction false} NeverPassesUndecodable(c: Contracts, start: World, run: seq<Event>, b: nat, l: Log)
    requires LegalRun(c, start, run)
    requires LastBlock(start.db) < b < |start.chain| && l in Matching(start.chain[b]) && !l.decodes
    ensures LastBlock(Exec(c, start, run).db) < b
    decreases |run|
  {
    hide Apply, Legal, PollCommits, Matching;
    if run != [] {
      var init, ev := run[..|run| - 1], run[|run| - 1];
      var w := Exec(c, start, init);
      NeverPassesUndecodable(c, start, init, b, l);
      ExactlyOnce(c, start, init);
      BlocksStay(c, start, init);
      assert start.chain[b] == w.chain[b];
      if ev.Grow? {
        GrowthOutcome(c, w, ev);
      } else {
        PollBeforeUndecodable(c, w, ev, b, l);
      }
    }
  }

  lemma PollBeforeUndecodable(c: Contracts, w: World, ev: Event, b: nat, l: Log)
    requires Numbered(w.chain, 0) && ev.Poll? && Legal(w, ev)
    requires LastBlock(w.db) < b < |w.chain| && l in Matching(w.chain[b]) && !l.decodes
    ensures LastBlock(Apply(c, w, ev).db) < b
  {
    hide Apply, Legal, LogsBetween, Matching, Decide, Highest, RowsOf;
    var cp := LastBlock(w.db);
    PollOutcome(c, w, ev);
    if cp + ev.page < b {
      if PollCommits(c, w, ev) {
        PageIsTaken(w.chain, cp, ev.page, ev.logs);
      }
    } else {
      MatchingInRange(w.chain, cp + 1, cp + ev.page, b, l);
      assert l in multiset(ev.logs);
      var i :| 0 <= i < |ev.logs| && ev.logs[i] == l;
      DecidesExactly(c, l);
      assert Fails(c, ev.logs, ev.faults, i);
    }
  }

  lemma {:induction false} MatchingInRange(chain: Chain, lo: nat, hi: nat, b: nat, l: Log)
    requires 0 < lo <= b <= hi && b < |chain| && l in Matching(chain[b])
    ensures l in LogsBetween(chain, lo, hi)
    decreases hi
  {
    hide LogsBetween, Matching;
    LogsStep(chain, lo, hi);
    if b < hi {
      MatchingInRange(chain, lo, hi - 1, b, l);
    }
  }

  lemma GrowthOutcome(c: Contracts, w: World, ev: Event)
    requires ev.Grow?
    ensures Apply(c, w, ev).db == w.db && w.chain <= Apply(c, w, ev).chain
  {
  }

  lemma LastIsToGo(chain: Chain, cp: nat, last: nat)
    ensures cp < last && Bearing(chain, last) ==> |BearingAfter(chain, cp, last)| > 0
  {
    if cp < last && Bearing(chain, last) {
      assert last in BearingAfter(chain, cp, last);
    }
  }

  /**
    Conversely, a page of final blocks without a single log holds the ingestor where it is: no run
    whose pages are at most that size ever moves the checkpoint.
   */
  lemma {:induction false} WideGapStalls(c: Contracts, start: World, run: seq<Event>, page: nat)
    requires LegalRun(c, start, run)
    requires LastBlock(start.db) + page < |start.chain|
    requires forall b :: LastBlock(start.db) < b <= LastBlock(start.db) + page ==> !Bearing(start.chain, b)
    requires forall i :: 0 <= i < |run| && run[i].Poll? ==> run[i].page <= page
    ensures LastBlock(Exec(c, start, run).db) == LastBlock(start.db)
    decreases |run|
  {
    hide Apply, Legal, PollCommits;
    if run != [] {
      var init, ev := run[..|run| - 1], run[|run| - 1];
      var w := Exec(c, start, init);
      WideGapStalls(c, start, init, page);
      ExactlyOnce(c, start, init);
      BlocksStay(c, start, init);
      if ev.Grow? {
        GrowthOutcome(c, w, ev);
      } else {
        PollOutcome(c, w, ev);
        if PollCommits(c, w, ev) {
          PollAdvances(c, w, ev);
          assert forall b :: LastBlock(start.db) < b <= LastBlock(start.db) + page ==>
              Bearing(w.chain, b) == Bearing(start.chain, b);
        }
      }
    }
  }
}
