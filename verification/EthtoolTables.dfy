/** The two descriptor tables of ethtool.c, laid out as in ethtool-copy.h: a command word,
    then one 32-bit word per field. */
module EthtoolTables {
  import opened StructCodec

  const COALESCE_DESC: seq<Desc> := [
    Desc("rx_coalesce_usecs", 4, 4),
    Desc("rx_max_coalesced_frames", 8, 4),
    Desc("rx_coalesce_usecs_irq", 12, 4),
    Desc("rx_max_coalesced_frames_irq", 16, 4),
    Desc("tx_coalesce_usecs", 20, 4),
    Desc("tx_max_coalesced_frames", 24, 4),
    Desc("tx_coalesce_usecs_irq", 28, 4),
    Desc("tx_max_coalesced_frames_irq", 32, 4),
    Desc("stats_block_coalesce_usecs", 36, 4),
    Desc("use_adaptive_rx_coalesce", 40, 4),
    Desc("use_adaptive_tx_coalesce", 44, 4),
    Desc("pkt_rate_low", 48, 4),
    Desc("rx_coalesce_usecs_low", 52, 4),
    Desc("rx_max_coalesced_frames_low", 56, 4),
    Desc("tx_coalesce_usecs_low", 60, 4),
    Desc("tx_max_coalesced_frames_low", 64, 4),
    Desc("pkt_rate_high", 68, 4),
    Desc("rx_coalesce_usecs_high", 72, 4),
    Desc("rx_max_coalesced_frames_high", 76, 4),
    Desc("tx_coalesce_usecs_high", 80, 4),
    Desc("tx_max_coalesced_frames_high", 84, 4),
    Desc("rate_sample_interval", 88, 4)
  ]

  const RINGPARAM_DESC: seq<Desc> := [
    Desc("rx_max_pending", 4, 4),
    Desc("rx_mini_max_pending", 8, 4),
    Desc("rx_jumbo_max_pending", 12, 4),
    Desc("tx_max_pending", 16, 4),
    Desc("rx_pending", 20, 4),
    Desc("rx_mini_pending", 24, 4),
    Desc("rx_jumbo_pending", 28, 4),
    Desc("tx_pending", 32, 4)
  ]

  const COALESCE_SIZE := 92
  const RINGPARAM_SIZE := 36

  lemma CoalesceRows()
    ensures forall i :: 0 <= i < |COALESCE_DESC| ==>
      COALESCE_DESC[i].offset == 4 * i + 4 && COALESCE_DESC[i].size == 4
  {
  }

  /** The row of a coalesce field, told from the length and two letters of its name: the
      names are distinct because this gives each its own row. */
  function RowOf(name: string): int {
    if |name| < 12 then -1
    else
      var tx := if name[0] == 't' then 4 else 0;
      var txLow := if name[0] == 't' then 2 else 0;
      var low := name[|name| - 1] == 'w';
      match |name|
      case 12 => 11
      case 13 => 16
      case 17 => tx
      case 20 => 21
      case 21 => if low then 12 + txLow else 2 + tx
      case 22 => 17 + txLow
      case 23 => 1 + tx
      case 24 => if name[13] == 'r' then 9 else 10
      case 26 => 8
      case 27 => if low then 13 + txLow else 3 + tx
      case _ => 18 + txLow
  }

  lemma EarlierNames()
    ensures forall i :: 0 <= i < 11 ==> RowOf(COALESCE_DESC[i].name) == i
  {
  }

  lemma LaterNames()
    ensures forall i :: 11 <= i < |COALESCE_DESC| ==> RowOf(COALESCE_DESC[i].name) == i
  {
  }

  lemma CoalesceNames()
    ensures forall i :: 0 <= i < |COALESCE_DESC| ==> RowOf(COALESCE_DESC[i].name) == i
  {
    hide RowOf;
    EarlierNames();
    LaterNames();
  }

  lemma CoalesceTable()
    ensures WellFormed(COALESCE_DESC) && InBounds(COALESCE_DESC, COALESCE_SIZE)
    ensures forall p :: 0 <= p < COALESCE_SIZE ==> (Covered(COALESCE_DESC, p) <==> p >= 4)
  {
    CoalesceRows();
    CoalesceNames();
    forall i, j | 0 <= i < j < |COALESCE_DESC| ensures Apart(COALESCE_DESC[i], COALESCE_DESC[j]) {
      assert RowOf(COALESCE_DESC[i].name) != RowOf(COALESCE_DESC[j].name);
    }
    forall p | 4 <= p < COALESCE_SIZE ensures Covered(COALESCE_DESC, p) {
      assert Within(COALESCE_DESC[p / 4 - 1], p);
    }
  }

  lemma RingparamNames()
    ensures forall i, j :: 0 <= i < j < |RINGPARAM_DESC| ==>
      RINGPARAM_DESC[i].name != RINGPARAM_DESC[j].name
  {
  }

  lemma RingparamTable()
    ensures WellFormed(RINGPARAM_DESC) && InBounds(RINGPARAM_DESC, RINGPARAM_SIZE)
    ensures forall p :: 0 <= p < RINGPARAM_SIZE ==> (Covered(RINGPARAM_DESC, p) <==> p >= 4)
  {
    assert forall i :: 0 <= i < |RINGPARAM_DESC| ==>
      RINGPARAM_DESC[i].offset == 4 * i + 4 && RINGPARAM_DESC[i].size == 4;
    RingparamNames();
    forall p | 4 <= p < RINGPARAM_SIZE ensures Covered(RINGPARAM_DESC, p) {
      assert Within(RINGPARAM_DESC[p / 4 - 1], p);
    }
  }
}
