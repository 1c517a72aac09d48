/**
  The log ingestor: one database transaction per poll, which stores the rows of a page of logs and
  moves the one-row checkpoint to the highest block among them.
 */
module Ingestor {

  type Address = nat

  const MOD64: nat := 0x1_0000_0000_0000_0000

  /** The first topic of a log; `Other` is any topic the ingestor does not filter for. */
  datatype Topic =
    | Transfer
    | AccountCreated
    | CampaignBalanceUpdated | CampaignCreated | CampaignUpdated
    | MintPosition | BurnPosition | TransferPosition | UpdatePositionLiquidity | CollectFees
    | NewPool | CollectProtocolFees | Swap2 | Swap1
    | Other

  /** `decodes` says whether the unpacking function of the topic accepts the topics and data. */
  datatype Log = Log(block: nat, emitter: Address, topic: Topic, decodes: bool, body: nat)

  datatype Contracts = Contracts(seawater: Address, thirdweb: Address, leo: Address)

  datatype Row = Row(table: string, log: Log)

  datatype Decision = Refuse | Ignore | Store(table: string)

  function Table(t: Topic): string
    requires t != Other
  {
    match t
    case Transfer => "events_erc20_transfer"
    case AccountCreated => "events_thirdweb_accountcreated"
    case CampaignBalanceUpdated => "events_leo_campaignbalancecreated"
    case CampaignCreated => "events_leo_campaigncreated"
    case CampaignUpdated => "events_leo_campaignupdated"
    case MintPosition => "events_seawater_mintposition"
    case BurnPosition => "events_seawater_burnposition"
    case TransferPosition => "events_seawater_transferposition"
    case UpdatePositionLiquidity => "events_seawater_updatepositionliquidity"
    case CollectFees => "events_seawater_collectfees"
    case NewPool => "events_seawater_newpool"
    case CollectProtocolFees => "events_seawater_collectprotocolfees"
    case Swap2 => "events_seawater_swap2"
    case Swap1 => "events_seawater_swap1"
  }

  /** The accept, ignore or fail decision for one log. */
  function Decide(c: Contracts, l: Log): Decision
  {
    if l.topic == Other then Refuse
    else
      var isThirdweb := l.topic == AccountCreated;
      var isLeo := l.topic in {CampaignBalanceUpdated, CampaignCreated, CampaignUpdated};
      var isSeawater := l.topic != Transfer && !isThirdweb && !isLeo;
      if !l.decodes then Refuse
      else if isThirdweb && c.thirdweb != l.emitter then Ignore
      else if isLeo && c.leo != l.emitter then Ignore
      else if isSeawater && c.seawater != l.emitter then Ignore
      else Store(Table(l.topic))
  }

  // --- The database ----------------------------------------------------------------------------

  datatype Checkpoint = Absent | At(block: nat)

  datatype Db = Db(rows: seq<Row>, checkpoint: Checkpoint)

  /** An empty checkpoint table reads as block zero. */
  function LastBlock(db: Db): nat
  {
    if db.checkpoint.Absent? then 0 else db.checkpoint.block
  }

  /** Which database operations of a transaction fail. */
  datatype Faults = Faults(inserts: set<nat>, checkpoint: bool, commit: bool)

  /** The rows a list of logs leads to, in its order. */
  function RowsOf(c: Contracts, logs: seq<Log>): seq<Row>
  {
    if logs == [] then []
    else
      var last := logs[|logs| - 1];
      RowsOf(c, logs[..|logs| - 1]) + (if Decide(c, last).Store? then [Row(Decide(c, last).table, last)] else [])
  }

  /** The running maximum, and whether any log reached it. */
  function Highest(from: nat, logs: seq<Log>): (nat, bool)
  {
    if logs == [] then (from, false)
    else
      var (biggest, changed) := Highest(from, logs[..|logs| - 1]);
      var block := logs[|logs| - 1].block;
      if biggest <= block then (block, true) else (biggest, changed)
  }

  /** Whether handling the log at position `i` makes the transaction fail. */
  predicate Fails(c: Contracts, logs: seq<Log>, faults: Faults, i: nat)
    requires i < |logs|
  {
    Decide(c, logs[i]).Refuse? || (Decide(c, logs[i]).Store? && i in faults.inserts)
  }

  predicate Commits(c: Contracts, from: nat, logs: seq<Log>, faults: Faults)
  {
    && (forall i :: 0 <= i < |logs| ==> !Fails(c, logs, faults, i))
    && !(Highest(from, logs).1 && faults.checkpoint)
    && !faults.commit
  }

  /** The database after the transaction for one page; a failed transaction is rolled back. */
  function Ingest(c: Contracts, db: Db, from: nat, logs: seq<Log>, faults: Faults): Db
  {
    if !Commits(c, from, logs, faults) then db
    else
      var (biggest, changed) := Highest(from, logs);
      Db(db.rows + RowsOf(c, logs), if changed then At(biggest) else db.checkpoint)
  }

  /** The database connection of a running ingestor. */
  class Connection {
    var rows: seq<Row>
    var checkpoint: Checkpoint

    function Contents(): Db
      reads this
    {
      Db(rows, checkpoint)
    }

    method GetLastBlockCheckpointed() returns (block: nat)
      ensures block == LastBlock(Contents())
    {
      match checkpoint
      case Absent => return 0;
      case At(b) => return b;
    }

    method UpdateCheckpoint(block: nat, fails: bool) returns (ok: bool)
      modifies this`checkpoint
      ensures ok == !fails
      ensures checkpoint == if ok then At(block) else old(checkpoint)
    {
      if fails {
        return false;
      }
      checkpoint := At(block);
      return true;
    }

    /** Insert the row a log leads to, if any. */
    method HandleLog(c: Contracts, l: Log, fails: bool) returns (ok: bool)
      modifies this`rows
      ensures ok == !(Decide(c, l).Refuse? || (Decide(c, l).Store? && fails))
      ensures rows == if ok && Decide(c, l).Store? then old(rows) + [Row(Decide(c, l).table, l)] else old(rows)
    {
      var decision := Decide(c, l);
      match decision
      case Refuse => return false;
      case Ignore => return true;
      case Store(table) =>
        if fails {
          return false;
        }
        rows := rows + [Row(table, l)];
        return true;
    }

    /** One transaction over a page of logs; a failure inside rolls it back and ends the process. */
    method IngestBlockRange(c: Contracts, from: nat, logs: seq<Log>, faults: Faults) returns (ok: bool)
      modifies this
      ensures ok == Commits(c, from, logs, faults)
      ensures Contents() == Ingest(c, old(Contents()), from, logs, faults)
    {
      var savedRows, savedCheckpoint := rows, checkpoint;
      var wasChanged := false;
      var biggestBlockNo := from;
      for i := 0 to |logs|
        invariant checkpoint == old(checkpoint)
        invariant rows == old(rows) + RowsOf(c, logs[..i])
        invariant (biggestBlockNo, wasChanged) == Highest(from, logs[..i])
        invariant forall k :: 0 <= k < i ==> !Fails(c, logs, faults, k)
      {
        assert logs[..i + 1][..i] == logs[..i];
        var handled := HandleLog(c, logs[i], i in faults.inserts);
        if !handled {
          assert Fails(c, logs, faults, i);
          rows := savedRows;
          return false;
        }
        var isBiggerOrEqual := biggestBlockNo <= logs[i].block;
        if isBiggerOrEqual {
          biggestBlockNo := logs[i].block;
          wasChanged := true;
        }
      }
      assert logs[..|logs|] == logs;
      if wasChanged {
        var updated := UpdateCheckpoint(biggestBlockNo, faults.checkpoint);
        if !updated {
          rows, checkpoint := savedRows, savedCheckpoint;
          return false;
        }
      }
      if faults.commit {
        rows, checkpoint := savedRows, savedCheckpoint;
        return false;
      }
      return true;
    }

    /** One turn of the polling loop: ask the node for the blocks after the checkpoint, then ingest its answer. */
    method Poll(c: Contracts, page: int, node: (nat, nat) -> seq<Log>, faults: Faults) returns (ended: Ended)
      modifies this
      ensures page <= 0 ==> ended == BadPagination && Contents() == old(Contents())
      ensures page > 0 ==>
                var (from, to) := Page(old(Contents()), page);
                && Contents() == Ingest(c, old(Contents()), from, node(from, to), faults)
                && ended == if Commits(c, from, node(from, to), faults) then Polled else Exited
    {
      if page <= 0 {
        return BadPagination;
      }
      var from := GetLastBlockCheckpointed();
      var to := (from + page) % MOD64;
      from := (from + 1) % MOD64;
      var ok := IngestBlockRange(c, from, node(from, to), faults);
      return if ok then Polled else Exited;
    }
  }

  /** How a turn of the polling loop ends: ready for the next one, or with the process gone. */
  datatype Ended = Polled | Exited | BadPagination

  /** The page a poll asks for, in 64-bit arithmetic. */
  function Page(db: Db, page: nat): (nat, nat)
  {
    ((LastBlock(db) + 1) % MOD64, (LastBlock(db) + page) % MOD64)
  }
}
