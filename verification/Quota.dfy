// The monthly token quota under concurrent reservations: INCRBY, then a separate
// DECRBY when the increment went over the limit.
module Quota {
  import opened Wrappers

  // An increment that was refused but not yet taken back. Its client may stop
  // here and never take it back.
  datatype Refused = Refused(month: string, n: nat)

  // used: the Redis counter of each month; accepted: the tokens of the
  // reservations that were told yes.
  datatype State = State(used: map<string, int>, accepted: map<string, nat>, refused: seq<Refused>)

  datatype Step =
    | Reserve(month: string, n: nat)
    | Rollback(i: nat)

  function Used(s: State, month: string): int {
    if month in s.used then s.used[month] else 0
  }

  function Accepted(s: State, month: string): nat {
    if month in s.accepted then s.accepted[month] else 0
  }

  // increment_and_check_monthly_tokens up to its answer; -1 means no limit.
  function Allowed(s: State, month: string, n: nat, limit: int): bool {
    limit == -1 || Used(s, month) + n <= limit
  }

  function Next(s: State, step: Step, limit: int): Option<State> {
    match step
    case Reserve(month, n) =>
      var used := s.used[month := Used(s, month) + n];
      if Allowed(s, month, n, limit)
      then Some(s.(used := used, accepted := s.accepted[month := Accepted(s, month) + n]))
      else Some(s.(used := used, refused := s.refused + [Refused(month, n)]))
    case Rollback(i) =>
      if i >= |s.refused| then None
      else
        var r := s.refused[i];
        Some(s.(used := s.used[r.month := Used(s, r.month) - r.n], refused := s.refused[..i] + s.refused[i + 1..]))
  }

  function Run(s: State, steps: seq<Step>, limit: int): Option<State>
    decreases |steps|
  {
    if steps == [] then Some(s)
    else match Next(s, steps[0], limit) case None => None case Some(s') => Run(s', steps[1..], limit)
  }

  const START := State(map[], map[], [])

  // What the refused increments of a month still add to its counter.
  function Debt(rs: seq<Refused>, month: string): nat {
    if rs == [] then 0 else (if rs[0].month == month then rs[0].n else 0) + Debt(rs[1..], month)
  }

  lemma {:induction false} DebtSplit(a: seq<Refused>, b: seq<Refused>, month: string)
    ensures Debt(a + b, month) == Debt(a, month) + Debt(b, month)
    decreases |a|
  {
    if a == [] {
      assert a + b == b;
    } else {
      assert (a + b)[0] == a[0] && (a + b)[1..] == a[1..] + b;
      DebtSplit(a[1..], b, month);
    }
  }

  ghost predicate Balanced(s: State, limit: int) {
    forall month ::
      && Used(s, month) == Accepted(s, month) + Debt(s.refused, month)
      && (limit >= 0 ==> Accepted(s, month) <= limit)
  }

  lemma DebtMore(rs: seq<Refused>, r: Refused, month: string)
    ensures Debt(rs + [r], month) == Debt(rs, month) + if r.month == month then r.n else 0
  {
    DebtSplit(rs, [r], month);
    assert [r][1..] == [];
  }

  lemma DebtLess(rs: seq<Refused>, i: nat, month: string)
    requires i < |rs|
    ensures Debt(rs, month) == Debt(rs[..i] + rs[i + 1..], month) + if rs[i].month == month then rs[i].n else 0
  {
    hide Debt;
    DebtSplit(rs[..i + 1], rs[i + 1..], month);
    DebtSplit(rs[..i], rs[i + 1..], month);
    DebtMore(rs[..i], rs[i], month);
    assert rs[..i + 1] == rs[..i] + [rs[i]] && rs == rs[..i + 1] + rs[i + 1..];
  }

  lemma BalancedStep(s: State, step: Step, limit: int)
    requires limit >= -1 && Balanced(s, limit) && Next(s, step, limit).Some?
    ensures Balanced(Next(s, step, limit).value, limit)
  {
    hide Debt;
    var s' := Next(s, step, limit).value;
    forall month
      ensures Used(s', month) == Accepted(s', month) + Debt(s'.refused, month)
      ensures limit >= 0 ==> Accepted(s', month) <= limit
    {
      assert Used(s, month) == Accepted(s, month) + Debt(s.refused, month);
      match step
      case Reserve(m, n) => DebtMore(s.refused, Refused(m, n), month);
      case Rollback(i) => DebtLess(s.refused, i, month);
    }
  }

  lemma {:induction false} BalancedRun(s: State, steps: seq<Step>, limit: int)
    requires limit >= -1 && Balanced(s, limit) && Run(s, steps, limit).Some?
    ensures Balanced(Run(s, steps, limit).value, limit)
    decreases |steps|
  {
    if steps != [] {
      BalancedStep(s, steps[0], limit);
      BalancedRun(Next(s, steps[0], limit).value, steps[1..], limit);
    }
  }

  // In every interleaving the accepted tokens of a month stay within the limit,
  // and a month with no rollback outstanding counts exactly the accepted ones.
  lemma NeverOverLimit(steps: seq<Step>, s: State, limit: int, month: string)
    requires limit >= 0 && Run(START, steps, limit) == Some(s)
    ensures Accepted(s, month) <= limit
    ensures (forall r :: r in s.refused ==> r.month != month || r.n == 0) ==> Used(s, month) == Accepted(s, month)
    ensures Used(s, month) >= Accepted(s, month)
  {
    BalancedRun(START, steps, limit);
    assert Used(s, month) == Accepted(s, month) + Debt(s.refused, month);
    if forall r :: r in s.refused ==> r.month != month || r.n == 0 {
      NoDebt(s.refused, month);
    }
  }

  lemma {:induction false} NoDebt(rs: seq<Refused>, month: string)
    requires forall r :: r in rs ==> r.month != month || r.n == 0
    ensures Debt(rs, month) == 0
    decreases |rs|
  {
    if rs != [] {
      assert rs[0] in rs;
      NoDebt(rs[1..], month);
    }
  }

  // One client's call with no other command between its two.
  class UsageCounters {
    var used: map<string, int>

    // (allowed, the total the caller is told)
    method IncrementAndCheck(month: string, n: nat, limit: int) returns (allowed: bool, total: int)
      modifies this
      ensures var before := State(old(used), map[], []);
              var after := Next(before, Reserve(month, n), limit).value;
              && allowed == (after.refused == [])
              && used == (if allowed then after else Next(after, Rollback(0), limit).value).used
              && total == Used(State(used, map[], []), month)
      ensures allowed == (limit == -1 || Used(State(old(used), map[], []), month) + n <= limit)
    {
      total := (if month in used then used[month] else 0) + n;
      used := used[month := total];
      if limit != -1 && total > limit {
        total := total - n;
        used := used[month := total];
        return false, total;
      }
      return true, total;
    }
  }
}
