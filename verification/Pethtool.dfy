/** The read-modify-write client of scripts/pethtool, on values: the name tables, the
    argument loop, and what one run does to a device. */
module Pethtool {
  import opened Words
  import opened StructCodec
  import opened EthtoolTables

  datatype Kind = Coalesce | Ring

  function Table(kind: Kind): seq<Desc> {
    if kind == Coalesce then COALESCE_DESC else RINGPARAM_DESC
  }

  function Size(kind: Kind): nat {
    if kind == Coalesce then COALESCE_SIZE else RINGPARAM_SIZE
  }

  // ETHTOOL_GCOALESCE, ETHTOOL_SCOALESCE, ETHTOOL_GRINGPARAM, ETHTOOL_SRINGPARAM
  function GetCommand(kind: Kind): u32 { if kind == Coalesce then 0x0e else 0x10 }

  function SetCommand(kind: Kind): u32 { if kind == Coalesce then 0x0f else 0x11 }

  lemma TableFits(kind: Kind)
    ensures WellFormed(Table(kind)) && InBounds(Table(kind), Size(kind))
    ensures forall p :: 0 <= p < Size(kind) ==> (Covered(Table(kind), p) <==> p >= 4)
    ensures forall i :: 0 <= i < |Table(kind)| ==> Table(kind)[i].offset >= 4
  {
    CoalesceTable();
    RingparamTable();
    var table := Table(kind);
    forall i | 0 <= i < |table| ensures table[i].offset >= 4 {
      assert Within(table[i], table[i].offset);
      assert Covered(table, table[i].offset);
    }
  }

  // ---------------------------------------------------------------------- name tables

  /** An entry of ethtool_coalesce_msgs: a pair, or the bare string '\n' (parentheses alone
      make no tuple), of which the code also takes elements 0 and 1. */
  datatype Entry = Pair(name: string, field: string) | Text(text: string)

  const ETHTOOL_COALESCE_MSGS: seq<Entry> := [
    Pair("stats-block-usecs", "stats_block_coalesce_usecs"),
    Pair("sample-interval", "rate_sample_interval"),
    Pair("pkt-rate-low", "pkt_rate_low"),
    Pair("pkt-rate-high", "pkt_rate_high"),
    Text("\n"),
    Pair("rx-usecs", "rx_coalesce_usecs"),
    Pair("rx-frames", "rx_max_coalesced_frames"),
    Pair("rx-usecs-irq", "rx_coalesce_usecs_irq"),
    Pair("rx-frames-irq", "rx_max_coalesced_frames_irq"),
    Text("\n"),
    Pair("tx-usecs", "tx_coalesce_usecs"),
    Pair("tx-frames", "tx_max_coalesced_frames"),
    Pair("tx-usecs-irq", "tx_coalesce_usecs_irq"),
    Pair("tx-frames-irq", "tx_max_coalesced_frames_irq"),
    Text("\n"),
    Pair("rx-usecs-low", "rx_coalesce_usecs_low"),
    Pair("rx-frame-low", "rx_max_coalesced_frames_low"),
    Pair("tx-usecs-low", "tx_coalesce_usecs_low"),
    Pair("tx-frame-low", "tx_max_coalesced_frames_low"),
    Text("\n"),
    Pair("rx-usecs-high", "rx_coalesce_usecs_high"),
    Pair("rx-frame-high", "rx_max_coalesced_frames_high"),
    Pair("tx-usecs-high", "tx_coalesce_usecs_high"),
    Pair("tx-frame-high", "tx_max_coalesced_frames_high")
  ]

  datatype PyError = IndexError | KeyError | IOError | OverflowError

  /** A recognised name, no recognised name, or the exception the search ran into. */
  datatype Lookup = Found(field: string) | NotFound | Raises(error: PyError)

  /** name[0] of an entry. */
  function Head(e: Entry): string {
    match e
    case Pair(name, _) => name
    case Text(text) => if text == "" then "" else text[..1]
  }

  /** name[1] of an entry. */
  function Second(e: Entry): Lookup {
    match e
    case Pair(_, field) => Found(field)
    case Text(text) => if |text| < 2 then Raises(IndexError) else Found(text[1..2])
  }

  /** What the search through the first `n` entries finds. */
  function Search(msgs: seq<Entry>, name: string): Lookup {
    if msgs == [] then NotFound
    else if Head(msgs[0]) == name then Second(msgs[0])
    else Search(msgs[1..], name)
  }

  function CoalesceEntry(name: string): Lookup {
    if name == "adaptive-rx" then Found("use_adaptive_rx_coalesce")
    else if name == "adaptive-tx" then Found("use_adaptive_tx_coalesce")
    else Search(ETHTOOL_COALESCE_MSGS, name)
  }

  lemma SearchFrom(msgs: seq<Entry>, name: string, i: nat)
    requires i <= |msgs|
    ensures Search(msgs[i..], name)
         == if i == |msgs| then NotFound
            else if Head(msgs[i]) == name then Second(msgs[i])
            else Search(msgs[i + 1..], name)
  {
    hide Head, Second;
    if i < |msgs| { assert msgs[i..][1..] == msgs[i + 1..]; }
  }

  /** get_coalesce_dict_entry */
  method GetCoalesceDictEntry(name: string) returns (r: Lookup)
    ensures r == CoalesceEntry(name)
  {
    hide Search, Head, Second;
    if name == "adaptive-rx" {
      return Found("use_adaptive_rx_coalesce");
    }
    if name == "adaptive-tx" {
      return Found("use_adaptive_tx_coalesce");
    }
    var msgs := ETHTOOL_COALESCE_MSGS;
    assert msgs[0..] == msgs;
    for i := 0 to |msgs|
      invariant CoalesceEntry(name) == Search(msgs[i..], name)
    {
      SearchFrom(msgs, name, i);
      if Head(msgs[i]) == name {
        return Second(msgs[i]);
      }
    }
    SearchFrom(msgs, name, |msgs|);
    return NotFound;
  }

  /** ethtool_ringparam_map */
  function RingEntry(name: string): Lookup {
    match name
    case "rx" => Found("rx_pending")
    case "rx-mini" => Found("rx_mini_pending")
    case "rx-jumbo" => Found("rx_jumbo_pending")
    case "tx" => Found("tx_pending")
    case _ => NotFound
  }

  lemma SearchFinds(msgs: seq<Entry>, name: string)
    ensures var r := Search(msgs, name);
            if r.NotFound? then forall i :: 0 <= i < |msgs| ==> Head(msgs[i]) != name
            else exists i :: 0 <= i < |msgs| && Head(msgs[i]) == name && Second(msgs[i]) == r
  {
    if msgs != [] && Head(msgs[0]) != name {
      SearchFinds(msgs[1..], name);
      forall i | 0 <= i < |msgs| && Search(msgs, name).NotFound? ensures Head(msgs[i]) != name {
        if i > 0 { assert msgs[i] == msgs[1..][i - 1]; }
      }
    }
  }

  /** An entry is a bare newline or names a row of the descriptor table. */
  predicate NamesAField(e: Entry) {
    if e.Text? then e.text == "\n"
    else 0 <= RowOf(e.field) < |COALESCE_DESC| && COALESCE_DESC[RowOf(e.field)].name == e.field
  }

  lemma GeneralMessages(i: nat)
    requires i < 5
    ensures NamesAField(ETHTOOL_COALESCE_MSGS[i])
  {
  }

  lemma ReceiveMessages(i: nat)
    requires 5 <= i < 10
    ensures NamesAField(ETHTOOL_COALESCE_MSGS[i])
  {
  }

  lemma SendMessages(i: nat)
    requires 10 <= i < 15
    ensures NamesAField(ETHTOOL_COALESCE_MSGS[i])
  {
  }

  lemma LowMessages(i: nat)
    requires 15 <= i < 20
    ensures NamesAField(ETHTOOL_COALESCE_MSGS[i])
  {
  }

  lemma HighMessages(i: nat)
    requires 20 <= i < |ETHTOOL_COALESCE_MSGS|
    ensures NamesAField(ETHTOOL_COALESCE_MSGS[i])
  {
  }

  lemma RingEntriesAreFields(name: string)
    ensures match RingEntry(name)
            case Found(field) => field in Names(RINGPARAM_DESC)
            case NotFound => true
            case Raises(_) => false
  {
    assert RINGPARAM_DESC[4].name == "rx_pending";
    assert RINGPARAM_DESC[5].name == "rx_mini_pending";
    assert RINGPARAM_DESC[6].name == "rx_jumbo_pending";
    assert RINGPARAM_DESC[7].name == "tx_pending";
  }

  lemma CoalesceEntriesAreFields(name: string)
    ensures match CoalesceEntry(name)
            case Found(field) => field in Names(COALESCE_DESC)
            case NotFound => true
            case Raises(error) => name == "\n" && error == IndexError
  {
    hide Search;
    assert COALESCE_DESC[9].name == "use_adaptive_rx_coalesce";
    assert COALESCE_DESC[10].name == "use_adaptive_tx_coalesce";
    var r := Search(ETHTOOL_COALESCE_MSGS, name);
    SearchFinds(ETHTOOL_COALESCE_MSGS, name);
    if !r.NotFound? {
      var i :| 0 <= i < |ETHTOOL_COALESCE_MSGS| && Head(ETHTOOL_COALESCE_MSGS[i]) == name
            && Second(ETHTOOL_COALESCE_MSGS[i]) == r;
      if i < 5 { GeneralMessages(i); }
      else if i < 10 { ReceiveMessages(i); }
      else if i < 15 { SendMessages(i); }
      else if i < 20 { LowMessages(i); }
      else { HighMessages(i); }
    }
  }

  function EntryOf(kind: Kind, name: string): Lookup {
    if kind == Coalesce then CoalesceEntry(name) else RingEntry(name)
  }

  /** The search for a newline stops at the first bare string of the table and looks for its
      second element. */
  lemma NewlineRaises()
    ensures CoalesceEntry("\n") == Raises(IndexError)
  {
    hide Search, Head;
    FirstBareString();
    SearchHits(ETHTOOL_COALESCE_MSGS, "\n", 4);
  }

  lemma FirstBareString()
    ensures ETHTOOL_COALESCE_MSGS[4] == Text("\n") && Head(ETHTOOL_COALESCE_MSGS[4]) == "\n"
    ensures forall i :: 0 <= i < 4 ==> Head(ETHTOOL_COALESCE_MSGS[i]) != "\n"
  {
  }

  lemma {:induction false} SearchHits(msgs: seq<Entry>, name: string, n: nat)
    requires n < |msgs| && Head(msgs[n]) == name
    requires forall i :: 0 <= i < n ==> Head(msgs[i]) != name
    ensures Search(msgs, name) == Second(msgs[n])
  {
    if n > 0 { SearchHits(msgs[1..], name, n - 1); }
  }

  /** Every name the script recognises stands for a field of the struct, so the dictionary
      access by it never fails; the search itself fails exactly for the argument "\n" among
      the coalesce options. */
  lemma RecognisedAreFields(kind: Kind, name: string)
    ensures var r := EntryOf(kind, name);
            && (r.Found? ==> r.field in Names(Table(kind)))
            && (r.Raises? <==> kind == Coalesce && name == "\n")
            && (r.Raises? ==> r.error == IndexError)
  {
    CoalesceEntriesAreFields(name);
    RingEntriesAreFields(name);
    NewlineRaises();
  }

  // The options the usage text and the manual page of pethtool promise for -C.
  const DOCUMENTED: seq<string> := [
    "adaptive-rx", "adaptive-tx",
    "stats-block-usecs", "sample-interval", "pkt-rate-low", "pkt-rate-high",
    "rx-usecs", "rx-frames", "rx-usecs-irq", "rx-frames-irq",
    "tx-usecs", "tx-frames", "tx-usecs-irq", "tx-frames-irq",
    "rx-usecs-low", "rx-frames-low", "tx-usecs-low", "tx-frames-low",
    "rx-usecs-high", "rx-frames-high", "tx-usecs-high", "tx-frames-high"
  ]

  const IGNORED := ["rx-frames-low", "tx-frames-low", "rx-frames-high", "tx-frames-high"]

  lemma IgnoredAreNotListed(i: nat, j: nat)
    requires i < |ETHTOOL_COALESCE_MSGS| && j < |IGNORED|
    ensures Head(ETHTOOL_COALESCE_MSGS[i]) != IGNORED[j]
  {
  }

  /** Where a documented option other than the first two stands in the table: behind every
      fourth entry comes a bare string. */
  function PlaceOf(j: nat): nat
    requires 2 <= j < |DOCUMENTED|
  {
    j - 2 + (j - 2) / 4
  }

  lemma EarlierAreListed(j: nat)
    requires 2 <= j < 12
    ensures Head(ETHTOOL_COALESCE_MSGS[PlaceOf(j)]) == DOCUMENTED[j]
  {
  }

  lemma LaterAreListed(j: nat)
    requires 12 <= j < |DOCUMENTED| && DOCUMENTED[j] !in IGNORED
    ensures Head(ETHTOOL_COALESCE_MSGS[PlaceOf(j)]) == DOCUMENTED[j]
  {
  }

  /** Four of the documented options are spelled differently in the table, so the script
      ignores them; it honours all the others. */
  lemma DocumentedOptions(j: nat)
    requires j < |DOCUMENTED|
    ensures CoalesceEntry(DOCUMENTED[j]).NotFound? <==> DOCUMENTED[j] in IGNORED
  {
    hide Search;
    var name := DOCUMENTED[j];
    SearchFinds(ETHTOOL_COALESCE_MSGS, name);
    if name in IGNORED {
      var k :| 0 <= k < |IGNORED| && IGNORED[k] == name;
      if !Search(ETHTOOL_COALESCE_MSGS, name).NotFound? {
        var i :| 0 <= i < |ETHTOOL_COALESCE_MSGS| && Head(ETHTOOL_COALESCE_MSGS[i]) == name;
        IgnoredAreNotListed(i, k);
      }
    } else if j >= 2 {
      if j < 12 { EarlierAreListed(j); } else { LaterAreListed(j); }
      assert PlaceOf(j) < |ETHTOOL_COALESCE_MSGS|;
    }
  }
}
