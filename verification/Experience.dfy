/**
 Sharing out the experience for a kill: every attacker gets the part of it that matches its part of the damage,
 and whoever shares with a party hands that part to the leader. Damage is added up in 32 bits.
 */
module Experience {
  import opened Common
  import opened Sums

  type CreatureId = nat

  /** Damage done, as a signed 32-bit number, and when it was last done. */
  datatype Damage = Damage(total: int, ticks: int)

  datatype Party = NoParty | Party(leader: CreatureId, shared: bool)

  datatype Attacker = Attacker(isPlayer: bool, master: CreatureId, party: Party)

  function Signed(n: int): int {
    (n + 0x8000_0000) % U32 - 0x8000_0000
  }

  function Unsigned(n: int): nat {
    n % U32
  }

  // ---------------------------------------------------------------- damage

  /** What an entry of the damage map adds to the total. */
  ghost function Points(id: CreatureId, d: Damage): int {
    if id == 0 then 0 else Unsigned(d.total)
  }

  /** The damage of everybody together. */
  ghost function AllDamage(m: map<CreatureId, Damage>): int {
    Total(m, Points)
  }

  /** The damage of everybody together, as far as 32 bits hold it. */
  ghost function TotalDamage(m: map<CreatureId, Damage>): nat {
    Unsigned(AllDamage(m))
  }

  ghost function DamageOf(m: map<CreatureId, Damage>, id: CreatureId): nat {
    if id in m then Points(id, m[id]) else 0
  }

  /** A quotient of whole numbers, as exact as the source means its floating-point ratio to be. */
  datatype Ratio = Ratio(num: nat, den: nat)

  ghost function RatioOf(m: map<CreatureId, Damage>, id: CreatureId): Ratio {
    if TotalDamage(m) == 0 then Ratio(0, 1) else Ratio(DamageOf(m, id), TotalDamage(m))
  }

  /** A part of an amount, rounded down. */
  function Portion(r: Ratio, lost: nat): nat
    requires r.den > 0
  {
    r.num * lost / r.den
  }

  /** The experience for one attacker: its part of the damage. */
  ghost function Share(m: map<CreatureId, Damage>, lost: nat, id: CreatureId): nat {
    Portion(RatioOf(m, id), lost)
  }

  // ---------------------------------------------------------------- who gets it

  /** Whose share is handed out: somebody other than the victim who is still there. */
  predicate Eligible(victim: CreatureId, people: map<CreatureId, Attacker>, id: CreatureId, d: Damage) {
    id != 0 && id in people && d.total != 0 && d.ticks != 0 && id != victim
  }

  /** The leader of the party, when the attacker or its master is a player in a party that shares. */
  function Recipient(people: map<CreatureId, Attacker>, id: CreatureId): CreatureId
  {
    if id !in people then id else
    var m := if people[id].master in people then people[id].master else id;
    if people[m].isPlayer && people[m].party.Party? && people[m].party.shared then people[m].party.leader else id
  }

  ghost function Shares(m: map<CreatureId, Damage>, lost: nat, victim: CreatureId,
                        people: map<CreatureId, Attacker>): (CreatureId, Damage) -> int {
    (id: CreatureId, d: Damage) => if Eligible(victim, people, id, d) then Share(m, lost, id) else 0
  }

  /** What falls to each attacker: nothing when it is not eligible. */
  ghost function ShareMap(m: map<CreatureId, Damage>, lost: nat, victim: CreatureId,
                          people: map<CreatureId, Attacker>): (r: map<CreatureId, int>)
    ensures r.Keys == m.Keys
    ensures forall id {:trigger r[id]} ::
            id in m ==> r[id] == if Eligible(victim, people, id, m[id]) then Share(m, lost, id) else 0
  {
    Weights(m, Shares(m, lost, victim, people))
  }

  ghost function Due(people: map<CreatureId, Attacker>, to: CreatureId): (CreatureId, int) -> int {
    (id: CreatureId, n: int) => if Recipient(people, id) == to then n else 0
  }

  /** What falls to those whose recipient is `to`. */
  ghost function Owed(shares: map<CreatureId, int>, people: map<CreatureId, Attacker>, to: CreatureId): int {
    Total(shares, Due(people, to))
  }

  ghost function EligiblePoints(victim: CreatureId, people: map<CreatureId, Attacker>): (CreatureId, Damage) -> int {
    (id: CreatureId, d: Damage) => if Eligible(victim, people, id, d) then Points(id, d) else 0
  }

  /** One for every attacker whose damage counts. */
  ghost function Counts(id: CreatureId, d: Damage): int {
    if Points(id, d) > 0 then 1 else 0
  }

  // ---------------------------------------------------------------- sums

  /** An inequality that holds entry by entry holds for the totals. */
  lemma {:induction false} TotalLinear<K, V>(m: map<K, V>, x: (K, V) -> int, y: (K, V) -> int, z: (K, V) -> int, a: int,
                                             b: int, c: int)
    requires forall k {:trigger m[k]} :: k in m ==> a * x(k, m[k]) <= b * y(k, m[k]) + c * z(k, m[k])
    ensures a * Total(m, x) <= b * Total(m, y) + c * Total(m, z)
    decreases |m|
  {
    if m == map[] {
      TotalNone(m, x);
      TotalNone(m, y);
      TotalNone(m, z);
    } else {
      var k :| k in m;
      TotalDrop(m, k, x);
      TotalDrop(m, k, y);
      TotalDrop(m, k, z);
      TotalLinear(m - {k}, x, y, z, a, b, c);
      Distribute(a, x(k, m[k]), Total(m - {k}, x));
      Distribute(b, y(k, m[k]), Total(m - {k}, y));
      Distribute(c, z(k, m[k]), Total(m - {k}, z));
    }
  }

  lemma Distribute(a: int, p: int, q: int)
    ensures a * (p + q) == a * p + a * q
  {
  }

  /** Rounded down, and short by less than one. */
  lemma DivBounds(n: nat, d: nat)
    requires d > 0
    ensures d * (n / d) <= n < d * (n / d) + d
  {
  }

  // ---------------------------------------------------------------- never more than was lost

  /** The shares of those eligible never add up to more than what was lost when their damage fits the total. */
  lemma SharesWithin(m: map<CreatureId, Damage>, lost: nat, victim: CreatureId, people: map<CreatureId, Attacker>)
    requires TotalDamage(m) == 0 || Total(m, EligiblePoints(victim, people)) <= TotalDamage(m)
    ensures Total(m, Shares(m, lost, victim, people)) <= lost
  {
    var t := TotalDamage(m);
    var x, y := Shares(m, lost, victim, people), EligiblePoints(victim, people);
    if t == 0 {
      TotalLinear(m, x, y, y, 1, 0, 0);
    } else {
      forall id | id in m ensures t * x(id, m[id]) <= lost * y(id, m[id]) + 0 * y(id, m[id]) {
        DivBounds(DamageOf(m, id) * lost, t);
      }
      TotalLinear(m, x, y, y, t, lost, 0);
      Cancel(t, Total(m, x), lost, Total(m, y));
    }
  }

  lemma Cancel(t: nat, s: int, lost: nat, sum: int)
    requires t > 0 && t * s <= lost * sum && sum <= t
    ensures s <= lost
  {
    TimesNotLess(lost, sum, t);
    if s > lost {
      TimesNotLess(t, lost + 1, s);
      Distribute(t, lost, 1);
    }
  }

  lemma TimesNotLess(a: nat, p: int, q: int)
    requires p <= q
    ensures a * p <= a * q
  {
    Distribute(a, p, q - p);
  }

  /**
   What is handed out is at most what was lost, for every amount, if and only if the damage of those eligible is
   at most the 32-bit total (or that total is zero and nobody gets anything).
   */
  lemma NeverMoreIff(m: map<CreatureId, Damage>, victim: CreatureId, people: map<CreatureId, Attacker>)
    ensures (forall lost: nat :: Total(m, Shares(m, lost, victim, people)) <= lost)
            <==> TotalDamage(m) == 0 || Total(m, EligiblePoints(victim, people)) <= TotalDamage(m)
  {
    var t := TotalDamage(m);
    if t == 0 || Total(m, EligiblePoints(victim, people)) <= t {
      forall lost: nat ensures Total(m, Shares(m, lost, victim, people)) <= lost {
        SharesWithin(m, lost, victim, people);
      }
    } else {
      AllOfIt(m, victim, people);
    }
  }

  /** When exactly the total was lost, everybody gets the damage done as experience. */
  lemma AllOfIt(m: map<CreatureId, Damage>, victim: CreatureId, people: map<CreatureId, Attacker>)
    requires TotalDamage(m) > 0
    ensures Total(m, Shares(m, TotalDamage(m), victim, people)) >= Total(m, EligiblePoints(victim, people))
  {
    var t: nat := TotalDamage(m);
    var x, y := Shares(m, t, victim, people), EligiblePoints(victim, people);
    forall id | id in m ensures 1 * y(id, m[id]) <= 1 * x(id, m[id]) + 0 * x(id, m[id]) {
      Undone(DamageOf(m, id), t);
    }
    TotalLinear(m, y, x, x, 1, 1, 0);
  }

  lemma Undone(n: nat, t: nat)
    requires t > 0
    ensures n * t / t == n
  {
    var q := n * t / t;
    DivBounds(n * t, t);
    assert n > q ==> n * t >= (q + 1) * t;
    assert n < q ==> (n + 1) * t <= q * t;
  }

  /** Three attackers who did 2^31 - 1, 2^31 - 1 and 3 points of damage. */
  function Overflowing(): map<CreatureId, Damage> {
    map[1 := Damage(0x7fff_ffff, 1), 2 := Damage(0x7fff_ffff, 1), 3 := Damage(3, 1)]
  }

  /** Their damage adds up to 1 in 32 bits, so for a single point of experience they get 2^32 + 1 points. */
  lemma OverflowMakesExperience(people: map<CreatureId, Attacker>)
    requires 1 in people && 2 in people && 3 in people
    ensures var m := Overflowing();
            && TotalDamage(m) == 1 && Total(m, EligiblePoints(0, people)) == U32 + 1
            && Total(m, Shares(m, 1, 0, people)) > 1
  {
    var m := Overflowing();
    OverflowTotals(people);
    AllOfIt(m, 0, people);
  }

  lemma OverflowTotals(people: map<CreatureId, Attacker>)
    requires 1 in people && 2 in people && 3 in people
    ensures AllDamage(Overflowing()) == U32 + 1 && TotalDamage(Overflowing()) == 1
    ensures Total(Overflowing(), EligiblePoints(0, people)) == U32 + 1
  {
    var m := Overflowing();
    ThreeEntries(m, Points);
    ThreeEntries(m, EligiblePoints(0, people));
    assert m[1].total == m[2].total == 0x7fff_ffff && m[3].total == 3;
  }

  lemma ThreeEntries(m: map<CreatureId, Damage>, weight: (CreatureId, Damage) -> int)
    requires m == Overflowing()
    ensures Total(m, weight) == weight(1, m[1]) + weight(2, m[2]) + weight(3, m[3])
  {
    TotalDrop(m, 1, weight);
    TotalDrop(m - {1}, 2, weight);
    TotalDrop(m - {1} - {2}, 3, weight);
    TotalNone(m - {1} - {2} - {3}, weight);
  }

  /** Without overflow it is at most what was lost, whoever is eligible. */
  lemma NeverMore(m: map<CreatureId, Damage>, lost: nat, victim: CreatureId, people: map<CreatureId, Attacker>)
    requires AllDamage(m) < U32
    ensures Total(m, Shares(m, lost, victim, people)) <= lost
  {
    TotalLinear(m, EligiblePoints(victim, people), Points, Points, 1, 1, 0);
    TotalLinear(m, Points, Points, Points, -1, 0, 0);
    SharesWithin(m, lost, victim, people);
  }

  /** When everybody who did damage is eligible, and nothing overflowed, less than one each is lost to rounding. */
  lemma FallsShort(m: map<CreatureId, Damage>, lost: nat, victim: CreatureId, people: map<CreatureId, Attacker>)
    requires 0 < AllDamage(m) < U32
    requires forall id {:trigger m[id]} :: id in m && Points(id, m[id]) > 0 ==> Eligible(victim, people, id, m[id])
    ensures lost - Total(m, Counts) < Total(m, Shares(m, lost, victim, people)) <= lost
  {
    NeverMore(m, lost, victim, people);
    var t, x := TotalDamage(m), Shares(m, lost, victim, people);
    forall id | id in m ensures lost * Points(id, m[id]) <= t * x(id, m[id]) + (t - 1) * Counts(id, m[id]) {
      OneShort(m, lost, victim, people, id);
    }
    TotalLinear(m, Points, x, Counts, lost, t, t - 1);
    TotalLinear(m, Points, Counts, Counts, 1, U32, 0);
    Short(t, Total(m, x), lost, Total(m, Counts));
  }

  lemma OneShort(m: map<CreatureId, Damage>, lost: nat, victim: CreatureId, people: map<CreatureId, Attacker>,
                 id: CreatureId)
    requires TotalDamage(m) > 0 && id in m && (Points(id, m[id]) > 0 ==> Eligible(victim, people, id, m[id]))
    ensures var t := TotalDamage(m);
            lost * Points(id, m[id]) <= t * Shares(m, lost, victim, people)(id, m[id]) + (t - 1) * Counts(id, m[id])
  {
    var p, t := Points(id, m[id]), TotalDamage(m);
    if p > 0 {
      DivBounds(p * lost, t);
      assert lost * p == p * lost;
    } else {
      assert lost * p == 0;
      assert Shares(m, lost, victim, people)(id, m[id]) >= 0;
    }
  }

  lemma Short(t: nat, s: int, lost: nat, n: int)
    requires t > 0 && n > 0 && lost * t <= t * s + (t - 1) * n
    ensures lost - n < s
  {
    assert (t - 1) * n == t * n - n;
    assert s <= lost - n ==> t * s <= t * (lost - n);
    assert t * (lost - n) == t * lost - t * n;
  }

  // ---------------------------------------------------------------- the victim

  ghost function Gain(id: CreatureId, n: nat): int {
    n
  }

  /** `total` is what 32 bits hold of `sum`. */
  ghost predicate Tracks(total: nat, sum: int) {
    total < U32 && exists q {:trigger q * U32} :: total + q * U32 == sum
  }

  /** Adding in 32 bits. */
  method AddWrapped(total: nat, points: nat, ghost sum: int) returns (r: nat)
    requires Tracks(total, sum)
    ensures Tracks(r, sum + points)
  {
    r := Unsigned(total + points);
    ghost var q :| total + q * U32 == sum;
    ghost var c := (total + points) / U32;
    assert r + (q + c) * U32 == sum + points;
  }

  lemma TracksUnsigned(total: nat, sum: int)
    requires Tracks(total, sum)
    ensures total == Unsigned(sum)
  {
    var q :| total + q * U32 == sum;
  }

  /** What the loop of `getDamageRatio` adds for an entry; entries for nobody and empty ones are passed over. */
  method AddedPoints(id: CreatureId, d: Damage) returns (points: nat)
    ensures points == Points(id, d)
  {
    if id == 0 || d.total == 0 {
      return 0;
    }
    return Unsigned(d.total);
  }

  /** One more hit by an attacker. */
  function Hit(m: map<CreatureId, Damage>, attackerId: CreatureId, points: int, now: int): map<CreatureId, Damage> {
    m[attackerId := Damage(Signed((if attackerId in m then m[attackerId].total else 0) + points), now)]
  }

  /** Every hit adds its points to the damage of everybody, and of its attacker, while 31 bits hold them. */
  lemma HitAdds(m: map<CreatureId, Damage>, attackerId: CreatureId, points: nat, now: int)
    requires attackerId != 0 && (attackerId in m ==> 0 <= m[attackerId].total < U32 / 2)
    requires DamageOf(m, attackerId) + points < U32 / 2
    ensures AllDamage(Hit(m, attackerId, points, now)) == AllDamage(m) + points
    ensures forall id :: DamageOf(Hit(m, attackerId, points, now), id)
                         == DamageOf(m, id) + if id == attackerId then points else 0
  {
    var before := if attackerId in m then m[attackerId].total else 0;
    var d := Damage(Signed(before + points), now);
    HitPoints(before, points);
    TotalSet(m, attackerId, d, Points);
  }

  lemma HitPoints(before: int, points: nat)
    requires 0 <= before < U32 / 2
    ensures Unsigned(before) == before
    ensures before + points < U32 / 2 ==> Unsigned(Signed(before + points)) == before + points
  {
  }

  class Victim {
    const id: CreatureId
    var damageMap: map<CreatureId, Damage>
    var lastHitCreatureId: CreatureId

    constructor (id: CreatureId)
      ensures this.id == id && damageMap == map[]
    {
      this.id, damageMap, lastHitCreatureId := id, map[], 0;
    }

    /** `addDamagePoints`. */
    method AddDamagePoints(attackerId: CreatureId, damagePoints: int, now: int)
      modifies this
      ensures damagePoints <= 0 ==> unchanged(this)
      ensures damagePoints > 0 ==>
              lastHitCreatureId == attackerId && damageMap == Hit(old(damageMap), attackerId, damagePoints, now)
    {
      if damagePoints <= 0 {
        return;
      }
      if attackerId !in damageMap {
        damageMap := damageMap[attackerId := Damage(Signed(damagePoints), now)];
      } else {
        damageMap := damageMap[attackerId := Damage(Signed(damageMap[attackerId].total + damagePoints), now)];
      }
      lastHitCreatureId := attackerId;
    }

    /** `getDamageRatio`. */
    method GetDamageRatio(attackerId: CreatureId) returns (ratio: Ratio)
      ensures ratio.den > 0 && ratio == RatioOf(damageMap, attackerId)
    {
      var totalDamage, attackerDamage := SumUp(attackerId);
      return if totalDamage == 0 then Ratio(0, 1) else Ratio(attackerDamage, totalDamage);
    }

    /** The loop of `getDamageRatio`. */
    method SumUp(attackerId: CreatureId) returns (totalDamage: nat, attackerDamage: nat)
      ensures totalDamage == TotalDamage(damageMap) && attackerDamage == DamageOf(damageMap, attackerId)
    {
      totalDamage, attackerDamage := 0, 0;
      var rest := damageMap;
      ghost var sum := 0;
      assert totalDamage + 0 * U32 == sum;
      while rest != map[]
        invariant rest.Keys <= damageMap.Keys && forall k <- rest :: rest[k] == damageMap[k]
        invariant Tracks(totalDamage, sum) && sum + AllDamage(rest) == AllDamage(damageMap)
        invariant attackerDamage == if attackerId in rest then 0 else DamageOf(damageMap, attackerId)
        decreases |rest|
      {
        var k: CreatureId :| k in rest;
        DamageDrop(rest, k);
        var points := AddedPoints(k, rest[k]);
        totalDamage := AddWrapped(totalDamage, points, sum);
        sum := sum + points;
        if k == attackerId {
          attackerDamage := attackerDamage + points;
        }
        rest := rest - {k};
      }
      NoDamage(rest);
      TracksUnsigned(totalDamage, sum);
    }

    /** `getGainedExperience`. */
    method GetGainedExperience(attackerId: CreatureId, lost: nat) returns (experience: nat)
      ensures experience == Share(damageMap, lost, attackerId)
    {
      var ratio := GetDamageRatio(attackerId);
      experience := Portion(ratio, lost);
    }

    /** The part of `onDeath` that hands out the experience: what everybody gets, each to its recipient. */
    method ShareOut(lost: nat, people: map<CreatureId, Attacker>) returns (experienceMap: map<CreatureId, nat>)
      ensures SharedOut(damageMap, lost, id, people, experienceMap)
    {
      experienceMap := map[];
      var rest := damageMap;
      ghost var shares := ShareMap(damageMap, lost, id, people);
      ghost var left := shares;
      TotalNone(experienceMap, Gain);
      while rest != map[]
        invariant rest.Keys <= damageMap.Keys && forall k <- rest :: rest[k] == damageMap[k]
        invariant left.Keys == rest.Keys && forall k <- left :: left[k] == shares[k]
        invariant Settled(experienceMap, left, shares, people)
        decreases |rest|
      {
        var attacker: CreatureId :| attacker in rest;
        SettledStep(experienceMap, left, shares, people, attacker);
        if Eligible(id, people, attacker, rest[attacker]) {
          var gainExp := GetGainedExperience(attacker, lost);
          var to := Recipient(people, attacker);
          assert gainExp == left[attacker];
          experienceMap := Credit(experienceMap, to, gainExp);
        } else {
          assert left[attacker] == 0;
        }
        rest, left := rest - {attacker}, left - {attacker};
      }
      SettledEnd(experienceMap, left, shares, people);
    }
  }

  lemma NoDamage(rest: map<CreatureId, Damage>)
    requires rest == map[]
    ensures AllDamage(rest) == 0
  {
    TotalNone(rest, Points);
  }

  lemma DamageDrop(rest: map<CreatureId, Damage>, k: CreatureId)
    requires k in rest
    ensures AllDamage(rest) == Points(k, rest[k]) + AllDamage(rest - {k})
  {
    TotalDrop(rest, k, Points);
  }

  /** One more share for somebody. */
  function Credit(experienceMap: map<CreatureId, nat>, to: CreatureId, gainExp: nat): map<CreatureId, nat> {
    if to !in experienceMap then experienceMap[to := gainExp] else experienceMap[to := experienceMap[to] + gainExp]
  }

  ghost function GainOf(experienceMap: map<CreatureId, nat>, to: CreatureId): nat {
    if to in experienceMap then experienceMap[to] else 0
  }

  /** What was handed out and what is still left make up everything, for each recipient and for all. */
  ghost predicate Settled(experienceMap: map<CreatureId, nat>, left: map<CreatureId, int>, shares: map<CreatureId, int>,
                          people: map<CreatureId, Attacker>) {
    && Total(experienceMap, Gain) + SumValues(left) == SumValues(shares)
    && forall to :: GainOf(experienceMap, to) + Owed(left, people, to) == Owed(shares, people, to)
  }

  lemma SettledStep(experienceMap: map<CreatureId, nat>, left: map<CreatureId, int>, shares: map<CreatureId, int>,
                    people: map<CreatureId, Attacker>,
                    attacker: CreatureId)
    requires Settled(experienceMap, left, shares, people) && attacker in left && left[attacker] >= 0
    ensures left[attacker] == 0 ==> Settled(experienceMap, left - {attacker}, shares, people)
    ensures var to, share: nat := Recipient(people, attacker), left[attacker];
            Settled(Credit(experienceMap, to, share), left - {attacker}, shares, people)
  {
    SumAt(left, attacker);
    var to, share: nat := Recipient(people, attacker), left[attacker];
    var after := Credit(experienceMap, to, share);
    CreditTotal(experienceMap, to, share);
    forall t
      ensures GainOf(after, t) + Owed(left - {attacker}, people, t) == Owed(shares, people, t)
      ensures share == 0 ==> GainOf(experienceMap, t) + Owed(left - {attacker}, people, t) == Owed(shares, people, t)
    {
      OwedStep(left, people, attacker, t);
      assert GainOf(experienceMap, t) + Owed(left, people, t) == Owed(shares, people, t);
      assert GainOf(after, t) == GainOf(experienceMap, t) + if t == to then share else 0;
    }
  }

  lemma CreditTotal(experienceMap: map<CreatureId, nat>, to: CreatureId, gainExp: nat)
    ensures Total(Credit(experienceMap, to, gainExp), Gain) == Total(experienceMap, Gain) + gainExp
  {
    TotalSet<CreatureId, nat>(experienceMap, to, GainOf(experienceMap, to) + gainExp, Gain);
  }

  lemma OwedStep(left: map<CreatureId, int>, people: map<CreatureId, Attacker>, attacker: CreatureId, to: CreatureId)
    requires attacker in left
    ensures Owed(left - {attacker}, people, to)
            == Owed(left, people, to) - if Recipient(people, attacker) == to then left[attacker] else 0
  {
    TotalDrop<CreatureId, int>(left, attacker, Due(people, to));
  }

  lemma SettledEnd(experienceMap: map<CreatureId, nat>, left: map<CreatureId, int>, shares: map<CreatureId, int>,
                   people: map<CreatureId, Attacker>)
    requires Settled(experienceMap, left, shares, people) && left == map[]
    ensures Total(experienceMap, Gain) == SumValues(shares)
    ensures forall to :: GainOf(experienceMap, to) == Owed(shares, people, to)
  {
    SumZero(left);
    forall to ensures Owed(left, people, to) == 0 {
      TotalNone(left, Due(people, to));
    }
  }

  // ---------------------------------------------------------------- who ends up with what

  /** An attacker's share is its part of the damage, rounded down. */
  lemma ShareIsProportional(m: map<CreatureId, Damage>, lost: nat, id: CreatureId)
    requires id in m && id != 0 && TotalDamage(m) > 0
    ensures var share, total, points := Share(m, lost, id), TotalDamage(m), Unsigned(m[id].total);
            total * share <= points * lost < total * share + total
  {
    DivBounds(Unsigned(m[id].total) * lost, TotalDamage(m));
  }

  /** What `ShareOut` ensures of its result. */
  ghost predicate SharedOut(m: map<CreatureId, Damage>, lost: nat, victim: CreatureId,
                            people: map<CreatureId, Attacker>, experienceMap: map<CreatureId, nat>)
  {
    && Total(experienceMap, Gain) == Total(m, Shares(m, lost, victim, people))
    && forall to :: GainOf(experienceMap, to) == Owed(ShareMap(m, lost, victim, people), people, to)
  }

  /** The attacker did damage lately, is still there, and is not the victim itself. */
  ghost predicate Attacks(m: map<CreatureId, Damage>, victim: CreatureId, people: map<CreatureId, Attacker>,
                          id: CreatureId) {
    id in m && id != 0 && id != victim && id in people && m[id].total != 0 && m[id].ticks != 0
  }

  /** The master of an attacker, or the attacker itself if it has none. */
  ghost function Behind(people: map<CreatureId, Attacker>, id: CreatureId): CreatureId {
    if id in people && people[id].master in people then people[id].master else id
  }

  /** A player in a party that shares, led by `leader`. */
  ghost predicate SharesWith(people: map<CreatureId, Attacker>, id: CreatureId, leader: CreatureId) {
    id in people && people[id].isPlayer && people[id].party == Party(leader, true)
  }

  /** When all attackers, or their masters, share with one leader, that leader gets everything. */
  lemma LeaderGetsAll(m: map<CreatureId, Damage>, lost: nat, victim: CreatureId, people: map<CreatureId, Attacker>,
                      experienceMap: map<CreatureId, nat>, leader: CreatureId)
    requires SharedOut(m, lost, victim, people, experienceMap)
    requires forall id | Attacks(m, victim, people, id) :: SharesWith(people, Behind(people, id), leader)
    ensures GainOf(experienceMap, leader) == Total(m, Shares(m, lost, victim, people)) == Total(experienceMap, Gain)
    ensures forall to | to != leader :: GainOf(experienceMap, to) == 0
  {
    var shares := ShareMap(m, lost, victim, people);
    forall id | id in m && shares[id] != 0 ensures Recipient(people, id) == leader {
      assert Attacks(m, victim, people, id);
    }
    assert Weights(shares, Due(people, leader)) == Weights(m, Shares(m, lost, victim, people));
    forall to | to != leader ensures Owed(shares, people, to) == 0 {
      SumZero(Weights(shares, Due(people, to)));
    }
  }

  /** Nobody else's share reaches whoever leads no party that shares. */
  lemma OnlyOwn(m: map<CreatureId, Damage>, lost: nat, victim: CreatureId, people: map<CreatureId, Attacker>,
                x: CreatureId)
    requires forall id :: !SharesWith(people, id, x)
    ensures Owed(ShareMap(m, lost, victim, people), people, x)
            == if x in m && Recipient(people, x) == x then ShareMap(m, lost, victim, people)[x] else 0
  {
    var shares := ShareMap(m, lost, victim, people);
    forall id | id in m && id != x ensures Recipient(people, id) != x {
      if id in people {
        var k := if people[id].master in people then people[id].master else id;
        assert !SharesWith(people, k, x);
      }
    }
    if x in shares {
      TotalDrop(shares, x, Due(people, x));
    }
    SumZero(Weights(shares - {x}, Due(people, x)));
    assert x !in shares ==> shares - {x} == shares;
  }

  /** Whoever shares with nobody, and neither does its master, and leads nobody, gets exactly its own share. */
  lemma LonerGetsOwn(m: map<CreatureId, Damage>, lost: nat, victim: CreatureId, people: map<CreatureId, Attacker>,
                     experienceMap: map<CreatureId, nat>, x: CreatureId)
    requires SharedOut(m, lost, victim, people, experienceMap) && forall id :: !SharesWith(people, id, x)
    requires Attacks(m, victim, people, x)
    requires forall leader :: !SharesWith(people, Behind(people, x), leader)
    ensures GainOf(experienceMap, x) == Share(m, lost, x)
  {
    var k := Behind(people, x);
    OnlyOwn(m, lost, victim, people, x);
    if people[k].party.Party? {
      assert !SharesWith(people, k, people[k].party.leader);
    }
  }

  /** Whoever did not attack, and leads nobody, gets nothing; nor does anybody else who shares with another. */
  lemma OthersGetNothing(m: map<CreatureId, Damage>, lost: nat, victim: CreatureId, people: map<CreatureId, Attacker>,
                         experienceMap: map<CreatureId, nat>, x: CreatureId)
    requires SharedOut(m, lost, victim, people, experienceMap) && forall id :: !SharesWith(people, id, x)
    requires !Attacks(m, victim, people, x)
             || exists leader :: SharesWith(people, Behind(people, x), leader)
    ensures GainOf(experienceMap, x) == 0
  {
    OnlyOwn(m, lost, victim, people, x);
  }
}
