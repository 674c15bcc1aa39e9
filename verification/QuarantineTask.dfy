/** The tracker as it runs: records in their array, the packet path's table, and
    the DHCP server it reads from and pushes to. */
module QuarantineTask {
  import opened Bytes
  import DhcpEvents
  import DhcpGrant
  import DhcpServer
  import DhcpTable
  import opened DhcpReport
  import opened Quarantine
  import opened QuarantineProofs
  import Seqlock

  class ConflictTracker {
    const conflicts: array<Conflict>
    const table: Seqlock.Table
    var exempt: seq<Mac>
    var enforce: bool

    ghost predicate Valid()
      reads this, conflicts, table, table.words
    {
      conflicts.Length == SLOTS && table.Valid() && TrackerOk(State())
    }

    /** The tracker's whole state; what it has published is what the packet path sees. */
    ghost function State(): Tracker
      reads this, conflicts, table
    {
      Tracker(conflicts[..], exempt, enforce, table.shown)
    }

    constructor ()
      ensures Valid() && State() == START
      ensures fresh(conflicts) && fresh(table) && fresh(table.words)
    {
      conflicts := new Conflict[SLOTS](_ => BLANK);
      table := new Seqlock.Table();
      exempt, enforce := [], true;
      new;
      assert conflicts[..] == START.conflicts;
      StartIsTruthful();
    }

    method FindSlot(ip: u32, a: Mac, b: Mac) returns (r: nat)
      requires conflicts.Length == SLOTS
      ensures r == FindRecord(conflicts[..], ip, a, b)
    {
      r := 0;
      while r < SLOTS
        invariant r <= SLOTS
        invariant FindRecord(conflicts[..], ip, a, b) == r + FindRecord(conflicts[r..], ip, a, b)
      {
        assert conflicts[r..][1..] == conflicts[r + 1..];
        if About(conflicts[r], ip, a, b) {
          return;
        }
        r := r + 1;
      }
    }

    method FindUnused() returns (r: nat)
      requires conflicts.Length == SLOTS
      ensures r == FindFree(conflicts[..])
    {
      r := 0;
      while r < SLOTS
        invariant r <= SLOTS
        invariant FindFree(conflicts[..]) == r + FindFree(conflicts[r..])
      {
        assert conflicts[r..][1..] == conflicts[r + 1..];
        if !conflicts[r].used {
          return;
        }
        r := r + 1;
      }
    }

    /** Settles who loses, unless armed, and counts the sighting. */
    method TouchSlot(i: nat, clients: Clients, a: Mac, b: Mac)
      requires conflicts.Length == SLOTS && i < SLOTS
      modifies conflicts
      ensures conflicts[..] == old(conflicts[..])[i := Touch(old(conflicts[i]), clients, a, b)]
    {
      if !conflicts[i].armed {
        if LoserIsB(Since(clients, a), Since(clients, b), a, b) {
          conflicts[i] := conflicts[i].(mac := b, peer := a);
        } else {
          conflicts[i] := conflicts[i].(mac := a, peer := b);
        }
      }
      conflicts[i] := conflicts[i].(miss := 0);
      if conflicts[i].confirm < ARM_TICKS {
        conflicts[i] := conflicts[i].(confirm := conflicts[i].confirm + 1);
      }
    }

    /** One sighting of a pair: its record is found, or a free one allotted. */
    method VisitPair(seen: array<bool>, clients: Clients, ip: u32, a: Mac, b: Mac)
      requires conflicts.Length == SLOTS && seen.Length == SLOTS
      modifies conflicts, seen
      ensures Tally(conflicts[..], seen[..]) == Visit(old(Tally(conflicts[..], seen[..])), clients, ip, a, b)
    {
      var c := FindSlot(ip, a, b);
      if c == SLOTS {
        c := FindUnused();
        if c == SLOTS {
          return;
        }
        conflicts[c] := BLANK.(used := true, ip := ip);
      }
      TouchSlot(c, clients, a, b);
      seen[c] := true;
    }

    method VisitPairs(leases: seq<LeaseInfo>, clients: Clients) returns (seen: array<bool>)
      requires conflicts.Length == SLOTS
      modifies conflicts
      ensures fresh(seen) && seen.Length == SLOTS
      ensures Tally(conflicts[..], seen[..]) == Tallied(old(State()), leases, clients)
    {
      seen := new bool[SLOTS](_ => false);
      ghost var all := Tallied(State(), leases, clients);
      assert seen[..] == seq(SLOTS, _ => false);
      var i := 0;
      while i < |leases|
        invariant Pairs(Tally(conflicts[..], seen[..]), leases, clients, i, i + 1) == all
      {
        var addr := EffectiveIp(leases[i]);
        if addr == 0 {
          i := i + 1;
          continue;
        }
        var j := i + 1;
        while j < |leases|
          invariant i < j
          invariant Pairs(Tally(conflicts[..], seen[..]), leases, clients, i, j) == all
        {
          if EffectiveIp(leases[j]) == addr {
            VisitPair(seen, clients, addr, leases[i].mac, leases[j].mac);
          }
          j := j + 1;
        }
        i := i + 1;
      }
    }

    method JudgeSlot(i: nat, seen: bool, clients: Clients, now: int)
      requires conflicts.Length == SLOTS && i < SLOTS
      modifies conflicts
      ensures conflicts[..] == old(conflicts[..])[i := Judge(old(conflicts[i]), seen, clients, exempt, now)]
    {
      if !conflicts[i].used {
        return;
      }
      if !seen {
        conflicts[i] := conflicts[i].(confirm := 0);
        if conflicts[i].miss < 255 {
          conflicts[i] := conflicts[i].(miss := conflicts[i].miss + 1);
        }
        if conflicts[i].armed && conflicts[i].miss >= DISARM_TICKS {
          conflicts[i] := conflicts[i].(armed := false);
        }
        if conflicts[i].miss >= FORGET_TICKS {
          conflicts[i] := conflicts[i].(used := false);
        }
      } else if !conflicts[i].armed && conflicts[i].confirm >= ARM_TICKS {
        if MayArm(conflicts[i], clients, exempt, now) {
          conflicts[i] := conflicts[i].(armed := true);
        }
      }
    }

    method JudgeAll(seen: array<bool>, clients: Clients, now: int) returns (armed: seq<Mac>)
      requires conflicts.Length == SLOTS && seen.Length == SLOTS
      modifies conflicts
      ensures conflicts[..] == Judged(Tally(old(conflicts[..]), old(seen[..])), clients, exempt, now)
      ensures armed == ArmedMacs(conflicts[..], SLOTS)
    {
      armed := [];
      for i := 0 to SLOTS
        invariant seen[..] == old(seen[..])
        invariant forall k | 0 <= k < i ::
                    conflicts[k] == Judge(old(conflicts[k]), seen[k], clients, exempt, now)
        invariant forall k | i <= k < SLOTS :: conflicts[k] == old(conflicts[k])
        invariant armed == ArmedMacs(conflicts[..], i)
      {
        ghost var before := conflicts[..];
        JudgeSlot(i, seen[i], clients, now);
        ArmedMacsPrefix(before, conflicts[..], i);
        if conflicts[i].used && conflicts[i].armed {
          armed := armed + [conflicts[i].mac];
        }
      }
    }

    /** Once a second: decide, publish to the packet path, tell the DHCP server. */
    method QuarantineRebuild(server: DhcpServer.DhcpServer, clients: Clients, now: int)
      requires Valid() && server.Valid() && DhcpGrant.Distinct(server.State().leases)
      modifies this, conflicts, table, table.words, server, server.leases
      ensures Valid() && server.Valid()
      ensures State() == Rebuild(old(State()),
                                 Report(old(server.State()), now, DhcpTable.MAX_LEASES), clients, now)
      ensures server.State() == DhcpEvents.QuarantineStep(old(server.State()), now, State().published)
    {
      var leases := server.GetLeases(now);
      ReportDistinct(server.State(), now, DhcpTable.MAX_LEASES);
      RebuildKeepsOk(State(), leases, clients, now);
      var seen := VisitPairs(leases, clients);
      var armed := JudgeAll(seen, clients, now);
      var enforced := if enforce then armed else [];
      table.Publish(enforced);
      server.SetQuarantined(enforced, now);
    }

    method CollectArmed() returns (armed: seq<Mac>)
      requires conflicts.Length == SLOTS
      ensures armed == ArmedMacs(conflicts[..], SLOTS)
    {
      armed := [];
      for i := 0 to SLOTS
        invariant armed == ArmedMacs(conflicts[..], i)
      {
        if conflicts[i].used && conflicts[i].armed {
          armed := armed + [conflicts[i].mac];
        }
      }
    }

    method QuarantineClear(mac: Option<Mac>) returns (done: bool)
      requires Valid()
      modifies this, conflicts, table, table.words
      ensures Valid() && State() == Clear(old(State()), mac)
      ensures done == (mac.None? || CanPardon(old(State()), mac.value))
    {
      ClearKeepsOk(State(), mac);
      if mac.None? {
        exempt := [];
        return true;
      }
      if mac.value in exempt || |exempt| >= SLOTS {
        return false;
      }
      exempt := exempt + [mac.value];
      for i := 0 to SLOTS
        invariant exempt == old(exempt) + [mac.value] && enforce == old(enforce)
        invariant forall k | 0 <= k < i :: conflicts[k] == Disarm(old(conflicts[k]), mac.value)
        invariant forall k | i <= k < SLOTS :: conflicts[k] == old(conflicts[k])
        invariant table.Valid()
      {
        if conflicts[i].used && conflicts[i].armed && conflicts[i].mac == mac.value {
          conflicts[i] := conflicts[i].(armed := false);
        }
      }
      assert conflicts[..] == Disarmed(old(conflicts[..]), mac.value);
      var armed := CollectArmed();
      table.Publish(if enforce then armed else []);
      return true;
    }

    method QuarantineEnforce(on: bool)
      requires Valid()
      modifies this, table, table.words
      ensures Valid() && State() == Enforce(old(State()), on)
    {
      EnforceKeepsOk(State(), on);
      enforce := on;
      if !on {
        table.Publish([]);
      } else {
        var armed := CollectArmed();
        table.Publish(armed);
      }
    }
  }

  lemma {:induction false} ArmedMacsPrefix(a: seq<Conflict>, b: seq<Conflict>, n: nat)
    requires n <= |a| && n <= |b| && forall k | 0 <= k < n :: a[k] == b[k]
    ensures ArmedMacs(a, n) == ArmedMacs(b, n)
  {
    if n > 0 {
      ArmedMacsPrefix(a, b, n - 1);
    }
  }
}
