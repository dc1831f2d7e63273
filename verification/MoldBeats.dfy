/** How many heartbeats the packer of a recorded feed sends. */
module MoldBeats {
  import opened MoldPlan
  import opened MoldFeed

  function Beats(plan: seq<Item>): nat {
    if plan == [] then 0 else Beats(plan[1..]) + if plan[0] == Heartbeat then 1 else 0
  }

  function DataPackets(plan: seq<Item>): nat {
    if plan == [] then 0 else DataPackets(plan[1..]) + if plan[0].Data? then 1 else 0
  }

  /** Messages in the first `d` full packets of the pattern. */
  function Total(d: nat): nat {
    if d == 0 then 0 else Total(d - 1) + Want(d - 1)
  }

  /** The number of data packets, and whether the last one is cut short. */
  lemma {:induction false} LayoutCounts(k: nat, left: nat) returns (d: nat, short: bool)
    ensures DataPackets(Layout(k, left)) == d
    ensures short ==> d > 0 && Total(k + d - 1) < Total(k) + left < Total(k + d)
    ensures !short ==> Total(k) + left == Total(k + d)
    ensures Beats(Layout(k, left)) == (k + d - if short then 1 else 0) / HB_EVERY - k / HB_EVERY
    decreases left
  {
    hide Total, Beats, DataPackets, Want;
    TotalNext(k);
    if left < Want(k) {
      d, short := if left > 0 then 1 else 0, left > 0;
      OneData(left);
    } else {
      d, short := LayoutCounts(k + 1, left - Want(k));
      RoundCounts(k, Layout(k + 1, left - Want(k)));
      NextMultiple(k);
      d := d + 1;
    }
  }

  lemma OneData(n: nat)
    ensures DataPackets([Data(n)]) == 1 && Beats([Data(n)]) == 0 && DataPackets([]) == 0 && Beats([]) == 0
  {
    assert [Data(n)][1..] == [];
  }

  lemma RoundCounts(k: nat, rest: seq<Item>)
    ensures DataPackets(Round(k) + rest) == 1 + DataPackets(rest)
    ensures Beats(Round(k) + rest) == Beats(rest) + if (k + 1) % HB_EVERY == 0 then 1 else 0
  {
    assert (Round(k) + rest)[1..] == BeatAfter(k) + rest;
    if (k + 1) % HB_EVERY == 0 {
      assert (BeatAfter(k) + rest)[1..] == rest;
    } else {
      assert BeatAfter(k) + rest == rest;
    }
  }

  lemma TotalNext(k: nat)
    ensures Total(k + 1) == Total(k) + Want(k)
  {
  }

  lemma NextMultiple(k: nat)
    ensures (k + 1) / HB_EVERY == k / HB_EVERY + if (k + 1) % HB_EVERY == 0 then 1 else 0
  {
  }

  lemma {:induction false} TotalGrows(a: nat, b: nat)
    requires a < b
    ensures Total(a) < Total(b)
  {
    if a < b - 1 {
      TotalGrows(a, b - 1);
    }
  }

  /** The feed ends inside the packet that a heartbeat would follow. */
  ghost predicate EndsInside(n: nat, m: nat) {
    m > 0 && Total(m * HB_EVERY - 1) < n < Total(m * HB_EVERY)
  }

  /** There is a heartbeat after every 97th data packet, that is, one for each 97 of them, exactly for the message
      counts that do not end the feed inside such a packet. */
  lemma HeartbeatsIff(n: nat)
    ensures Beats(Layout(0, n)) == DataPackets(Layout(0, n)) / HB_EVERY <==> !exists m: nat :: EndsInside(n, m)
  {
    hide Layout, Beats, DataPackets, Total;
    NoTotal();
    var d, short := LayoutCounts(0, n);
    var m := d / HB_EVERY;
    if short && d % HB_EVERY == 0 {
      assert d == m * HB_EVERY;
      assert EndsInside(n, m);
    } else {
      forall m': nat
        ensures !EndsInside(n, m')
      {
        NotInside(n, d, short, m');
      }
    }
  }

  lemma NoTotal()
    ensures Total(0) == 0
  {
  }

  lemma NotInside(n: nat, d: nat, short: bool, m: nat)
    requires if short then d > 0 && d % HB_EVERY != 0 && Total(d - 1) < n < Total(d) else n == Total(d)
    ensures !EndsInside(n, m)
  {
    if m > 0 {
      var e := m * HB_EVERY;
      if d < e {
        if d < e - 1 {
          TotalGrows(d, e - 1);
        }
      } else if e < d {
        if e < d - 1 {
          TotalGrows(e, d - 1);
        }
        if !short {
          TotalGrows(e, d);
        }
      }
    }
  }

  lemma {:induction false} TotalOfCycles(j: nat)
    ensures Total(8 * j) == 36 * j
  {
    if j > 0 {
      TotalOfCycles(j - 1);
      OneCycle(8 * (j - 1));
    }
  }

  lemma OneCycle(k: nat)
    requires k % 8 == 0
    ensures Total(k + 8) == Total(k) + 36
  {
    CycleWants(k);
    hide Total, Want;
    NextTotal(k); NextTotal(k + 1); NextTotal(k + 2); NextTotal(k + 3);
    NextTotal(k + 4); NextTotal(k + 5); NextTotal(k + 6); NextTotal(k + 7);
  }

  lemma NextTotal(k: nat)
    ensures Total(k + 1) == Total(k) + Want(k)
  {
  }

  lemma CycleWants(k: nat)
    requires k % 8 == 0
    ensures Want(k) == 1 && Want(k + 1) == 2 && Want(k + 2) == 3 && Want(k + 3) == 5
    ensures Want(k + 4) == 8 && Want(k + 5) == 4 && Want(k + 6) == 7 && Want(k + 7) == 6
  {
  }

  lemma CutShortCounts(n: nat, d: nat)
    requires d > 0 && Total(d - 1) < n < Total(d)
    ensures DataPackets(Layout(0, n)) == d && Beats(Layout(0, n)) == (d - 1) / HB_EVERY
  {
    hide Layout, Beats, DataPackets, Total;
    NoTotal();
    var e, short := LayoutCounts(0, n);
    if e < d {
      if e < d - 1 {
        TotalGrows(e, d - 1);
      }
    } else if d < e {
      if d < e - 1 {
        TotalGrows(d, e - 1);
      }
      TotalGrows(d, e);
    }
  }

  lemma TotalsAfter(cycles: nat, k: nat)
    requires k == 8 * cycles
    ensures Total(k + 1) == 36 * cycles + 1 && Total(k + 2) == 36 * cycles + 3
  {
    TotalOfCycles(cycles);
    CycleWants(k);
    assert Total(k + 2) == Total(k + 1) + Want(k + 1) && Total(k + 1) == Total(k) + Want(k);
  }

  /** A feed of 866 messages is one: its 194th data packet wants two messages and gets one, and the second heartbeat is
      not sent. */
  lemma MissingHeartbeat()
    ensures Beats(Layout(0, 866)) == 1 && DataPackets(Layout(0, 866)) == 194
  {
    hide Layout, Beats, DataPackets, Total;
    TotalsAfter(24, 192);
    CutShortCounts(866, 194);
  }
}
