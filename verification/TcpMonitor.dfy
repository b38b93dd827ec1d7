/** The connection counts of voyager/core/tcp_monitor.cc. Every method body runs under its lock. */
module Monitoring {
  type Ip = string

  /** A connection that has been announced and has not closed; exempt says that its address was
      on the allow list when it came. */
  datatype Conn = Conn(id: nat, ip: Ip, accepted: bool, exempt: bool)

  function From(live: set<Conn>, ip: Ip): set<Conn> { set c | c in live && c.ip == ip }

  function Accepted(live: set<Conn>): set<Conn> { set c | c in live && c.accepted }

  /** Those that the limit per address is for. */
  function Limited(live: set<Conn>, ip: Ip): set<Conn> { set c | c in live && c.ip == ip && c.accepted && !c.exempt }

  lemma SubsetSize<T>(a: set<T>, b: set<T>)
    requires a <= b
    ensures |a| <= |b|
  {
    assert b == a + (b - a);
  }

  lemma JoinedFrom(live: set<Conn>, c: Conn, ip: Ip)
    requires c !in live
    ensures |From(live + {c}, ip)| == |From(live, ip)| + if c.ip == ip then 1 else 0
  {
    assert From(live + {c}, ip) == if c.ip == ip then From(live, ip) + {c} else From(live, ip);
  }

  lemma JoinedLimited(live: set<Conn>, c: Conn, ip: Ip)
    requires c !in live
    ensures |Limited(live + {c}, ip)| == |Limited(live, ip)| + if c.ip == ip && c.accepted && !c.exempt then 1 else 0
  {
    assert Limited(live + {c}, ip) ==
      if c.ip == ip && c.accepted && !c.exempt then Limited(live, ip) + {c} else Limited(live, ip);
  }

  lemma JoinedAccepted(live: set<Conn>, c: Conn)
    requires c !in live
    ensures |Accepted(live + {c})| == |Accepted(live)| + if c.accepted then 1 else 0
  {
    assert Accepted(live + {c}) == if c.accepted then Accepted(live) + {c} else Accepted(live);
  }

  lemma Joined(live: set<Conn>, c: Conn, ip: Ip)
    requires c !in live
    ensures |From(live + {c}, ip)| == |From(live, ip)| + if c.ip == ip then 1 else 0
    ensures |Accepted(live + {c})| == |Accepted(live)| + if c.accepted then 1 else 0
    ensures |Limited(live + {c}, ip)| == |Limited(live, ip)| + if c.ip == ip && c.accepted && !c.exempt then 1 else 0
    ensures |Limited(live + {c}, ip)| <= |From(live + {c}, ip)| && |Accepted(live + {c})| <= |live + {c}|
  {
    SubsetSize(Limited(live + {c}, ip), From(live + {c}, ip));
    SubsetSize(Accepted(live + {c}), live + {c});
    hide From, Limited, Accepted;
    JoinedFrom(live, c, ip);
    JoinedLimited(live, c, ip);
    JoinedAccepted(live, c);
  }

  /** One count per address with a live connection, and none at zero. */
  ghost predicate Tallies(counts: map<Ip, int>, live: set<Conn>) {
    forall ip :: (ip in counts <==> |From(live, ip)| > 0) && (ip in counts ==> counts[ip] == |From(live, ip)|)
  }

  function Bumped(counts: map<Ip, int>, ip: Ip): map<Ip, int> {
    if ip in counts then counts[ip := counts[ip] + 1] else counts[ip := 1]
  }

  function Dropped(counts: map<Ip, int>, ip: Ip): map<Ip, int>
    requires ip in counts
  {
    if counts[ip] - 1 <= 0 then counts - {ip} else counts[ip := counts[ip] - 1]
  }

  lemma TallyJoined(counts: map<Ip, int>, live: set<Conn>, c: Conn)
    requires Tallies(counts, live) && c !in live
    ensures Tallies(Bumped(counts, c.ip), live + {c})
  {
    hide From, Limited, Accepted;
    forall ip: Ip ensures |From(live + {c}, ip)| == |From(live, ip)| + if c.ip == ip then 1 else 0 {
      Joined(live, c, ip);
    }
  }

  lemma TallyLeft(counts: map<Ip, int>, live: set<Conn>, c: Conn)
    requires Tallies(counts, live + {c}) && c !in live
    ensures c.ip in counts && Tallies(Dropped(counts, c.ip), live)
  {
    hide From, Limited, Accepted;
    forall ip: Ip ensures |From(live + {c}, ip)| == |From(live, ip)| + if c.ip == ip then 1 else 0 {
      Joined(live, c, ip);
    }
  }

  /** The limits, for the connections that they are for. */
  ghost predicate Within(maxAll: int, maxIp: int, live: set<Conn>) {
    (|Accepted(live)| > 0 ==> |Accepted(live)| <= maxAll) &&
    (maxIp > 0 ==> forall ip :: |Limited(live, ip)| <= maxIp)
  }

  lemma WithinJoined(maxAll: int, maxIp: int, live: set<Conn>, c: Conn)
    requires Within(maxAll, maxIp, live) && c !in live
    requires c.accepted ==> |live| + 1 <= maxAll && (c.exempt || maxIp <= 0 || |From(live, c.ip)| + 1 <= maxIp)
    ensures Within(maxAll, maxIp, live + {c})
  {
    forall ip: Ip ensures maxIp > 0 ==> |Limited(live + {c}, ip)| <= maxIp {
      Joined(live, c, ip);
    }
    Joined(live, c, c.ip);
  }

  lemma WithinLeft(maxAll: int, maxIp: int, live: set<Conn>, c: Conn)
    requires Within(maxAll, maxIp, live + {c}) && c !in live
    ensures Within(maxAll, maxIp, live)
  {
    forall ip: Ip ensures maxIp > 0 ==> |Limited(live, ip)| <= maxIp {
      Joined(live, c, ip);
    }
    Joined(live, c, c.ip);
  }

  class TcpMonitor {
    const maxAll: int
    const maxIp: int
    var counter: int
    var ipCounter: map<Ip, int>
    var allowIps: set<Ip>
    var denyIps: set<Ip>
    ghost var live: set<Conn>

    ghost predicate Valid()
      reads this
    {
      counter == |live| && (maxIp != 0 ==> Tallies(ipCounter, live)) && Within(maxAll, maxIp, live)
    }

    constructor (maxAll: int, maxIp: int)
      ensures Valid() && live == {} && this.maxAll == maxAll && this.maxIp == maxIp
    {
      this.maxAll, this.maxIp := maxAll, maxIp;
      counter, ipCounter, allowIps, denyIps, live := 0, map[], {}, {}, {};
    }

    method AddAllowIp(ip: Ip)
      requires Valid()
      modifies this`allowIps
      ensures Valid() && allowIps == old(allowIps) + {ip}
    {
      allowIps := allowIps + {ip};
    }

    method DeleteAllowIp(ip: Ip)
      requires Valid()
      modifies this`allowIps
      ensures Valid() && allowIps == old(allowIps) - {ip}
    {
      allowIps := allowIps - {ip};
    }

    method AddDenyIp(ip: Ip)
      requires Valid()
      modifies this`denyIps
      ensures Valid() && denyIps == old(denyIps) + {ip}
    {
      denyIps := denyIps + {ip};
    }

    method DeleteDenyIp(ip: Ip)
      requires Valid()
      modifies this`denyIps
      ensures Valid() && denyIps == old(denyIps) - {ip}
    {
      denyIps := denyIps - {ip};
    }

    method OnConnection(id: nat, ip: Ip) returns (result: bool)
      requires Valid() && forall c :: c in live ==> c.id != id
      modifies this`counter, this`ipCounter, this`live
      ensures Valid()
      ensures live == old(live) + {Conn(id, ip, result, ip in allowIps)}
      ensures result <==>
        |old(live)| + 1 <= maxAll && ip !in denyIps &&
        (maxIp == 0 || ip in allowIps || |From(old(live), ip)| == 0 || |From(old(live), ip)| + 1 <= maxIp)
    {
      hide From, Limited, Accepted, Within;
      result := true;
      counter := counter + 1;
      if counter > maxAll {
        result := false;
      }
      if maxIp != 0 {
        if ip in ipCounter {
          ipCounter := ipCounter[ip := ipCounter[ip] + 1];
          if ipCounter[ip] > maxIp && ip !in allowIps {
            result := false;
          }
        } else {
          ipCounter := ipCounter[ip := 1];
        }
        assert ipCounter == Bumped(old(ipCounter), ip);
      }
      if result && ip in denyIps {
        result := false;
      }
      ghost var c := Conn(id, ip, result, ip in allowIps);
      if maxIp != 0 { TallyJoined(old(ipCounter), live, c); }
      WithinJoined(maxAll, maxIp, live, c);
      live := live + {c};
    }

    method OnClose(c: Conn)
      requires Valid() && c in live
      modifies this`counter, this`ipCounter, this`live
      ensures Valid() && live == old(live) - {c}
    {
      hide From, Limited, Accepted, Within, Tallies;
      ghost var rest := live - {c};
      assert rest + {c} == live;
      WithinLeft(maxAll, maxIp, rest, c);
      if maxIp != 0 {
        TallyLeft(ipCounter, rest, c);
        assert c.ip in ipCounter;
        ipCounter := ipCounter[c.ip := ipCounter[c.ip] - 1];
        if ipCounter[c.ip] <= 0 {
          ipCounter := ipCounter - {c.ip};
        }
        assert ipCounter == Dropped(old(ipCounter), c.ip);
      }
      counter := counter - 1;
      live := rest;
    }
  }
}
