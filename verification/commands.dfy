/**
 * The command vocabulary of the general query log (mygl/reader.go:16-48).
 * The reader keeps the command name as captured text, and the worker and
 * the dispatcher compare that text with these constants (main.go:96,
 * main.go:109, main.go:157).  `Parse` is the classification those
 * comparisons amount to, with `Other` holding any name outside the
 * vocabulary verbatim; `Reader.IsParses` states the correspondence.
 */
module Commands {

  datatype Command =
    | BinlogDump
    | ChangeUser
    | CloseStmt
    | Connect
    | ConnectOut
    | CreateDB
    | Daemon
    | Debug
    | DelayedInsert
    | DropDB
    | Error
    | Execute
    | Fetch
    | FieldList
    | InitDB
    | Kill
    | LongData
    | Ping
    | Prepare
    | Processlist
    | Query
    | Quit
    | Refresh
    | RegisterSlave
    | ResetStmt
    | SetOption
    | Shutdown
    | Sleep
    | Statistics
    | TableDump
    | Time
    | Other(name: string)

  /** Position of a named command in `Vocabulary`. */
  function Index(c: Command): (k: nat)
    requires !c.Other?
  {
    match c
    case BinlogDump => 0
    case ChangeUser => 1
    case CloseStmt => 2
    case Connect => 3
    case ConnectOut => 4
    case CreateDB => 5
    case Daemon => 6
    case Debug => 7
    case DelayedInsert => 8
    case DropDB => 9
    case Error => 10
    case Execute => 11
    case Fetch => 12
    case FieldList => 13
    case InitDB => 14
    case Kill => 15
    case LongData => 16
    case Ping => 17
    case Prepare => 18
    case Processlist => 19
    case Query => 20
    case Quit => 21
    case Refresh => 22
    case RegisterSlave => 23
    case ResetStmt => 24
    case SetOption => 25
    case Shutdown => 26
    case Sleep => 27
    case Statistics => 28
    case TableDump => 29
    case Time => 30
  }

  /** The name under which a command appears in the log. */
  function Name(c: Command): string
  {
    if c.Other? then c.name else VocabularyNames[Index(c)]
  }

  /** Every named command, in the order the source declares them. */
  const Vocabulary: seq<Command> := [
    BinlogDump,
    ChangeUser,
    CloseStmt,
    Connect,
    ConnectOut,
    CreateDB,
    Daemon,
    Debug,
    DelayedInsert,
    DropDB,
    Error,
    Execute,
    Fetch,
    FieldList,
    InitDB,
    Kill,
    LongData,
    Ping,
    Prepare,
    Processlist,
    Query,
    Quit,
    Refresh,
    RegisterSlave,
    ResetStmt,
    SetOption,
    Shutdown,
    Sleep,
    Statistics,
    TableDump,
    Time
  ]

  /** Classifies a captured command name; comparison is exact (case-sensitive). */
  function Parse(s: string): (c: Command)
    ensures c.Other? <==> forall i :: 0 <= i < |Vocabulary| ==> Name(Vocabulary[i]) != s
    ensures Name(c) == s
  {
    Lookup(s, 0)
  }

  function Lookup(s: string, i: nat): (c: Command)
    requires i <= |Vocabulary|
    ensures c.Other? <==> forall j :: i <= j < |Vocabulary| ==> Name(Vocabulary[j]) != s
    ensures Name(c) == s
    decreases |Vocabulary| - i
  {
    if i == |Vocabulary| then Other(s)
    else if Name(Vocabulary[i]) == s then Vocabulary[i]
    else Lookup(s, i + 1)
  }

  predicate IsKnown(s: string)
  {
    !Parse(s).Other?
  }

  /** The printed names, index for index with `Vocabulary`. */
  const VocabularyNames: seq<string> := [
    "Binlog Dump",
    "Change user",
    "Close stmt",
    "Connect",
    "Connect Out",
    "Create DB",
    "Daemon",
    "Debug",
    "Delayed insert",
    "Drop DB",
    "Error",
    "Execute",
    "Fetch",
    "Field List",
    "Init DB",
    "Kill",
    "Long Data",
    "Ping",
    "Prepare",
    "Processlist",
    "Query",
    "Quit",
    "Refresh",
    "Register Slave",
    "Reset stmt",
    "Set option",
    "Shutdown",
    "Sleep",
    "Statistics",
    "Table Dump",
    "Time"
  ]

  /** `Index` is the position of the command in `Vocabulary`. */
  lemma IndexInverse(c: Command)
    requires !c.Other?
    ensures Index(c) < |Vocabulary| && Vocabulary[Index(c)] == c
  {
    match c
    case BinlogDump => assert Vocabulary[0] == BinlogDump;
    case ChangeUser => assert Vocabulary[1] == ChangeUser;
    case CloseStmt => assert Vocabulary[2] == CloseStmt;
    case Connect => assert Vocabulary[3] == Connect;
    case ConnectOut => assert Vocabulary[4] == ConnectOut;
    case CreateDB => assert Vocabulary[5] == CreateDB;
    case Daemon => assert Vocabulary[6] == Daemon;
    case Debug => assert Vocabulary[7] == Debug;
    case DelayedInsert => assert Vocabulary[8] == DelayedInsert;
    case DropDB => assert Vocabulary[9] == DropDB;
    case Error => assert Vocabulary[10] == Error;
    case Execute => assert Vocabulary[11] == Execute;
    case Fetch => assert Vocabulary[12] == Fetch;
    case FieldList => assert Vocabulary[13] == FieldList;
    case InitDB => assert Vocabulary[14] == InitDB;
    case Kill => assert Vocabulary[15] == Kill;
    case LongData => assert Vocabulary[16] == LongData;
    case Ping => assert Vocabulary[17] == Ping;
    case Prepare => assert Vocabulary[18] == Prepare;
    case Processlist => assert Vocabulary[19] == Processlist;
    case Query => assert Vocabulary[20] == Query;
    case Quit => assert Vocabulary[21] == Quit;
    case Refresh => assert Vocabulary[22] == Refresh;
    case RegisterSlave => assert Vocabulary[23] == RegisterSlave;
    case ResetStmt => assert Vocabulary[24] == ResetStmt;
    case SetOption => assert Vocabulary[25] == SetOption;
    case Shutdown => assert Vocabulary[26] == Shutdown;
    case Sleep => assert Vocabulary[27] == Sleep;
    case Statistics => assert Vocabulary[28] == Statistics;
    case TableDump => assert Vocabulary[29] == TableDump;
    case Time => assert Vocabulary[30] == Time;
  }

  lemma NamesDistinct()
    ensures |VocabularyNames| == |Vocabulary|
    ensures forall i, j :: 0 <= i < j < |VocabularyNames| ==> VocabularyNames[i] != VocabularyNames[j]
  {
  }

  /** Classifying a printed name gives the command back, for every command
      whose `Other` payload is not itself one of the known names. */
  lemma ParseName(c: Command)
    requires c.Other? ==> !IsKnown(c.name)
    ensures Parse(Name(c)) == c
  {
    if !c.Other? {
      IndexInverse(c);
      var d := Parse(Name(c));
      assert !d.Other? by {
        assert Name(Vocabulary[Index(c)]) == Name(c);
      }
      IndexInverse(d);
      NamesDistinct();
      assert VocabularyNames[Index(d)] == VocabularyNames[Index(c)];
    }
  }
}
