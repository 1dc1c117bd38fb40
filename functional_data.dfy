/** The list exercises over the employee records: the bonus total computed
    by a `for` loop and by a filter/map/reduce chain, `find`, `filter` with the
    `check` suffix test, `map` to phone numbers, the richest American, and
    sorting a `slice()` copy by salary. */
module FunctionalData {
  import opened Wrappers

  /** The fields of an employee record that the exercises read. */
  datatype Employee = Employee(id: int, name: string, nationality: string, salary: int, email: string, phone: string)

  // ---------------------------------------------------------------------
  // Array.prototype.filter, map, reduce
  // ---------------------------------------------------------------------

  /** `s.filter(p)`: the elements that satisfy `p`, in their original order. */
  function Filter<T(!new)>(s: seq<T>, p: T -> bool): (r: seq<T>)
    ensures |r| <= |s|
    ensures forall x :: x in r <==> x in s && p(x)
  {
    if |s| == 0 then []
    else Filter(s[..|s| - 1], p) + if p(s[|s| - 1]) then [s[|s| - 1]] else []
  }

  /** `filter` keeps every occurrence of a passing element and drops every
      occurrence of a failing one. */
  lemma {:induction false} FilterCounts<T(!new)>(s: seq<T>, p: T -> bool)
    ensures forall x :: multiset(Filter(s, p))[x] == if p(x) then multiset(s)[x] else 0
  {
    if |s| > 0 {
      FilterCounts(s[..|s| - 1], p);
      assert s == s[..|s| - 1] + [s[|s| - 1]];
    }
  }

  /** `s.map(f)`: one result per element, at the same index. */
  function Map<T, U>(s: seq<T>, f: T -> U): (r: seq<U>)
    ensures |r| == |s|
    ensures forall i :: 0 <= i < |s| ==> r[i] == f(s[i])
  {
    if |s| == 0 then []
    else Map(s[..|s| - 1], f) + [f(s[|s| - 1])]
  }

  /** `xs.reduce((aggr, bonus) => aggr + bonus, 0)`. */
  function Sum(xs: seq<real>): (total: real)
    ensures (forall i :: 0 <= i < |xs| ==> xs[i] >= 0.0) ==> total >= 0.0
  {
    if |xs| == 0 then 0.0 else Sum(xs[..|xs| - 1]) + xs[|xs| - 1]
  }

  /** `a` is what remains of `b` after deleting some of its elements: the
      last element of `b` is either deleted or matched by the last of `a`. */
  ghost predicate IsSubsequence<T>(a: seq<T>, b: seq<T>)
    decreases |b|
  {
    if |b| == 0 then |a| == 0
    else
      IsSubsequence(a, b[..|b| - 1])
      || (|a| > 0 && a[|a| - 1] == b[|b| - 1] && IsSubsequence(a[..|a| - 1], b[..|b| - 1]))
  }

  /** A filter only deletes elements: it keeps the others in their order. */
  lemma {:induction false} FilterIsSubsequence<T(!new)>(s: seq<T>, p: T -> bool)
    ensures IsSubsequence(Filter(s, p), s)
  {
    if |s| > 0 {
      var prefix := s[..|s| - 1];
      FilterIsSubsequence(prefix, p);
      var kept := Filter(prefix, p);
      if p(s[|s| - 1]) {
        assert (kept + [s[|s| - 1]])[..|kept|] == kept;
      } else {
        assert kept + [] == kept;
      }
    }
  }

  lemma {:induction false} SubsequenceNotLonger<T>(a: seq<T>, b: seq<T>)
    requires IsSubsequence(a, b)
    ensures |a| <= |b|
    decreases |b|
  {
    if |b| > 0 {
      if IsSubsequence(a, b[..|b| - 1]) {
        SubsequenceNotLonger(a, b[..|b| - 1]);
      } else {
        SubsequenceNotLonger(a[..|a| - 1], b[..|b| - 1]);
      }
    }
  }

  /** Filtering twice is filtering once by the conjunction. */
  lemma {:induction false} FilterThenFilter<T(!new)>(s: seq<T>, p: T -> bool, q: T -> bool, both: T -> bool)
    requires forall x :: both(x) == (p(x) && q(x))
    ensures Filter(Filter(s, p), q) == Filter(s, both)
  {
    if |s| > 0 {
      var prefix, x := s[..|s| - 1], s[|s| - 1];
      FilterThenFilter(prefix, p, q, both);
      var once := Filter(prefix, p);
      if p(x) {
        assert (once + [x])[..|once|] == once;
      } else {
        assert once + [] == once;
      }
    }
  }

  // ---------------------------------------------------------------------
  // The bonus total
  // ---------------------------------------------------------------------

  function IsDE(e: Employee): bool { e.nationality == "DE" }
  function EarnsBelow5000(e: Employee): bool { e.salary < 5000 }
  function IsDEBelow5000(e: Employee): bool { e.nationality == "DE" && e.salary < 5000 }

  /** 20% of the salary, as an exact real. */
  function Bonus(e: Employee): real { e.salary as real * 0.2 }

  /** The chain `employees.filter(DE).filter(salary < 5000).map(bonus).reduce(+, 0)`;
      the step-by-step version with intermediate variables is the same composition. */
  function BonusPipeline(employees: seq<Employee>): real
  {
    Sum(Map(Filter(Filter(employees, IsDE), EarnsBelow5000), Bonus))
  }

  /** No salary below zero gives no bonus total below zero. */
  lemma BonusNonNegative(employees: seq<Employee>)
    requires forall i :: 0 <= i < |employees| ==> employees[i].salary >= 0
    ensures BonusPipeline(employees) >= 0.0
  {
    var passing := Filter(Filter(employees, IsDE), EarnsBelow5000);
    var bonuses := Map(passing, Bonus);
    forall i | 0 <= i < |bonuses| ensures bonuses[i] >= 0.0 {
      assert passing[i] in passing;
      assert passing[i] in employees;
    }
  }

  /** One more employee adds its bonus to the chain's total exactly when it
      passes both filters. */
  lemma BonusPipelineAppend(employees: seq<Employee>, e: Employee)
    ensures BonusPipeline(employees + [e]) == BonusPipeline(employees) + if IsDEBelow5000(e) then Bonus(e) else 0.0
  {
    var all := employees + [e];
    assert all[..|employees|] == employees;
    var de := Filter(employees, IsDE);
    var de' := Filter(all, IsDE);
    assert de' == de + if IsDE(e) then [e] else [];
    var poor := Filter(de, EarnsBelow5000);
    var poor' := Filter(de', EarnsBelow5000);
    if IsDE(e) {
      assert de'[..|de|] == de;
      assert poor' == poor + if EarnsBelow5000(e) then [e] else [];
      if EarnsBelow5000(e) {
        assert (poor + [e])[..|poor|] == poor;
        var bonuses := Map(poor, Bonus);
        assert Map(poor', Bonus) == bonuses + [Bonus(e)];
        assert (bonuses + [Bonus(e)])[..|bonuses|] == bonuses;
      } else {
        assert poor' == poor;
      }
    } else {
      assert de' == de;
    }
  }

  lemma BonusPipelineStep(employees: seq<Employee>, i: nat)
    requires i < |employees|
    ensures BonusPipeline(employees[..i + 1]) == BonusPipeline(employees[..i]) + if IsDEBelow5000(employees[i]) then Bonus(employees[i]) else 0.0
  {
    TakeOneMore(employees, i);
    BonusPipelineAppend(employees[..i], employees[i]);
  }

  lemma TakeOneMore<T>(s: seq<T>, i: nat)
    requires i < |s|
    ensures s[..i + 1] == s[..i] + [s[i]]
  {
  }

  /** The `for` loop: it adds the bonus of every German employee earning below
      5000, in index order, and so reaches the chain's total. */
  method TotalBonusLoop(employees: seq<Employee>) returns (totalBonus: real)
    ensures totalBonus == BonusPipeline(employees)
  {
    totalBonus := 0.0;
    for i := 0 to |employees|
      invariant totalBonus == BonusPipeline(employees[..i])
    {
      var employee := employees[i];
      BonusPipelineStep(employees, i);
      if employee.nationality == "DE" && employee.salary < 5000 {
        totalBonus := totalBonus + employee.salary as real * 0.2;
      }
    }
    assert employees[..|employees|] == employees;
  }

  /** The loop's single test `nationality === 'DE' && salary < 5000` selects
      the same employees as the two chained filters. */
  lemma LoopConditionIsBothFilters(employees: seq<Employee>)
    ensures Filter(Filter(employees, IsDE), EarnsBelow5000) == Filter(employees, IsDEBelow5000)
    ensures BonusPipeline(employees) == Sum(Map(Filter(employees, IsDEBelow5000), Bonus))
  {
    FilterThenFilter(employees, IsDE, EarnsBelow5000, IsDEBelow5000);
  }

  /** The German employees below 5000 are among the German employees, in the
      same order, so there are never more of them. */
  lemma SecondFilterNarrows(employees: seq<Employee>)
    ensures IsSubsequence(Filter(Filter(employees, IsDE), EarnsBelow5000), Filter(employees, IsDE))
    ensures |Filter(Filter(employees, IsDE), EarnsBelow5000)| <= |Filter(employees, IsDE)|
  {
    FilterIsSubsequence(Filter(employees, IsDE), EarnsBelow5000);
  }

  // ---------------------------------------------------------------------
  // find
  // ---------------------------------------------------------------------

  /** `s.find(p)`: the first element that satisfies `p`, or `undefined`. */
  function Find<T>(s: seq<T>, p: T -> bool): (r: Option<T>)
    ensures r.None? <==> forall i :: 0 <= i < |s| ==> !p(s[i])
    ensures r.Some? ==> p(r.value) && r.value == s[FirstIndex(s, p)]
  {
    if |s| == 0 then None
    else if p(s[0]) then Some(s[0])
    else Find(s[1..], p)
  }

  /** Where the scan of `find` stops: the number of elements before the first
      match, or `|s|` when there is none. */
  function FirstIndex<T>(s: seq<T>, p: T -> bool): (i: nat)
    ensures i <= |s|
    ensures forall j :: 0 <= j < i ==> !p(s[j])
    ensures i < |s| ==> p(s[i])
  {
    if |s| == 0 || p(s[0]) then 0
    else 1 + FirstIndex(s[1..], p)
  }

  /** `find` by id, the first lookup of the exercise; the lookup by
      nationality is `Find` with the predicate `e.nationality === "US"`. */
  function FindById(employees: seq<Employee>, id: int): (r: Option<Employee>)
    ensures r.Some? ==> r.value in employees && r.value.id == id
    ensures r.None? <==> forall i :: 0 <= i < |employees| ==> employees[i].id != id
  {
    Find(employees, (e: Employee) => e.id == id)
  }

  // ---------------------------------------------------------------------
  // check(email, domain)
  // ---------------------------------------------------------------------

  function Max(a: int, b: int): int { if a < b then b else a }
  function Min(a: int, b: int): int { if a < b then a else b }

  /** `s.substr(start, length)`: a negative start counts from the end (and is
      clamped at 0), the length is clamped to what is left. */
  function Substr(s: string, start: int, length: int): (r: string)
    ensures |r| <= |s|
    ensures 0 <= start <= |s| && start + length >= |s| ==> r == s[start..]
    ensures start < 0 && length >= |s| ==> r == s[Max(|s| + start, 0)..]
  {
    var from := if start < 0 then Max(|s| + start, 0) else start;
    var to := Min(from + Min(Max(length, 0), |s|), |s|);
    if from >= to then "" else s[from..to]
  }

  /** `domain` is what `email` ends with. */
  ghost predicate EndsWith(email: string, domain: string)
  {
    |domain| <= |email| && forall i :: 0 <= i < |domain| ==> email[|email| - |domain| + i] == domain[i]
  }

  /** `email.substr(email.length - domain.length, email.length) === domain`. */
  function Check(email: string, domain: string): (r: bool)
    ensures r <==> EndsWith(email, domain)
    ensures |domain| > |email| ==> !r
  {
    var tail := Substr(email, |email| - |domain|, |email|);
    assert |domain| <= |email| ==> tail == email[|email| - |domain|..];
    tail == domain
  }

  function EmployeesWithDomain(employees: seq<Employee>, domain: string): (r: seq<Employee>)
    ensures forall e :: e in r <==> e in employees && EndsWith(e.email, domain)
    ensures forall e :: multiset(r)[e] == if EndsWith(e.email, domain) then multiset(employees)[e] else 0
  {
    FilterCounts(employees, (e: Employee) => Check(e.email, domain));
    Filter(employees, (e: Employee) => Check(e.email, domain))
  }

  // ---------------------------------------------------------------------
  // map to phone numbers, the richest American
  // ---------------------------------------------------------------------

  function PhoneNumbers(employees: seq<Employee>): (r: seq<string>)
    ensures |r| == |employees|
    ensures forall i :: 0 <= i < |employees| ==> r[i] == employees[i].phone
  {
    Map(employees, (e: Employee) => e.phone)
  }

  /** `Math.max.apply(null, xs)`; the `-Infinity` of an empty list is `None`. */
  function MathMax(xs: seq<int>): (r: Option<int>)
    ensures r.None? <==> xs == []
    ensures r.Some? ==> r.value in xs && forall i :: 0 <= i < |xs| ==> xs[i] <= r.value
  {
    if |xs| == 0 then None
    else
      var rest := MathMax(xs[..|xs| - 1]);
      if rest.None? || rest.value < xs[|xs| - 1] then Some(xs[|xs| - 1]) else rest
  }

  /** `employees.find(e => e.salary === maxSalary && e.nationality === "US")`,
      whose `.phone` the exercise reads; `None` is the `undefined` on which
      that read throws. */
  function RichestUSEmployee(employees: seq<Employee>): (r: Option<Employee>)
    ensures r.Some? ==> (r.value in employees && r.value.nationality == "US"
      && forall i :: 0 <= i < |employees| ==> employees[i].salary <= r.value.salary)
    ensures r.None? <==> forall i :: 0 <= i < |employees| && employees[i].nationality == "US" ==>
      exists j :: 0 <= j < |employees| && employees[i].salary < employees[j].salary
  {
    var salaries := Map(employees, (e: Employee) => e.salary);
    var maxSalary := MathMax(salaries);
    if maxSalary.None? then None
    else
      var r := Find(employees, (e: Employee) => e.salary == maxSalary.value && e.nationality == "US");
      assert forall i :: 0 <= i < |employees| ==> employees[i].salary <= maxSalary.value by {
        forall i | 0 <= i < |employees| ensures employees[i].salary <= maxSalary.value {
          assert salaries[i] == employees[i].salary;
        }
      }
      ghost var top :| 0 <= top < |salaries| && salaries[top] == maxSalary.value;
      assert forall i :: 0 <= i < |employees| && employees[i].salary < maxSalary.value ==> employees[i].salary < employees[top].salary;
      r
  }

  // ---------------------------------------------------------------------
  // Sorting a slice() copy
  // ---------------------------------------------------------------------

  datatype SortOrder = BySalaryDescending | BySalaryAscending

  /** The comparators `(a, b) => b.salary - a.salary` and `(a, b) => a.salary - b.salary`. */
  function Compare(order: SortOrder, a: Employee, b: Employee): int
  {
    match order
    case BySalaryDescending => b.salary - a.salary
    case BySalaryAscending => a.salary - b.salary
  }

  /** `a` may stay before `b`: the comparator does not ask to swap them. */
  predicate InOrder(order: SortOrder, a: Employee, b: Employee)
  {
    Compare(order, a, b) <= 0
  }

  ghost predicate Ordered(order: SortOrder, s: seq<Employee>)
  {
    forall i, j :: 0 <= i < j < |s| ==> InOrder(order, s[i], s[j])
  }

  /** Inserting `x` into a sorted list, scanning from the right end. */
  function Insert(order: SortOrder, s: seq<Employee>, x: Employee): (r: seq<Employee>)
    ensures |r| == |s| + 1
  {
    if |s| == 0 then [x]
    else if InOrder(order, s[|s| - 1], x) then s + [x]
    else Insert(order, s[..|s| - 1], x) + [s[|s| - 1]]
  }

  lemma {:induction false} InsertPermutes(order: SortOrder, s: seq<Employee>, x: Employee)
    ensures multiset(Insert(order, s, x)) == multiset(s) + multiset{x}
  {
    if |s| > 0 && !InOrder(order, s[|s| - 1], x) {
      var prefix := s[..|s| - 1];
      InsertPermutes(order, prefix, x);
      assert prefix + [s[|s| - 1]] == s;
    }
  }

  function InsertionSort(order: SortOrder, s: seq<Employee>): (r: seq<Employee>)
    ensures |r| == |s|
  {
    if |s| == 0 then [] else Insert(order, InsertionSort(order, s[..|s| - 1]), s[|s| - 1])
  }

  lemma {:induction false} InsertOrdered(order: SortOrder, s: seq<Employee>, x: Employee)
    requires Ordered(order, s)
    ensures Ordered(order, Insert(order, s, x))
  {
    if |s| > 0 && !InOrder(order, s[|s| - 1], x) {
      var prefix, last := s[..|s| - 1], s[|s| - 1];
      InsertOrdered(order, prefix, x);
      var inserted := Insert(order, prefix, x);
      InsertPermutes(order, prefix, x);
      forall i | 0 <= i < |inserted| ensures InOrder(order, inserted[i], last) {
        assert inserted[i] in multiset(prefix) + multiset{x};
        if inserted[i] != x {
          assert inserted[i] in prefix;
        }
      }
    }
  }

  lemma {:induction false} InsertionSortOrdered(order: SortOrder, s: seq<Employee>)
    ensures Ordered(order, InsertionSort(order, s))
  {
    if |s| > 0 {
      var prefix := s[..|s| - 1];
      InsertionSortOrdered(order, prefix);
      InsertOrdered(order, InsertionSort(order, prefix), s[|s| - 1]);
    }
  }

  lemma {:induction false} InsertionSortPermutes(order: SortOrder, s: seq<Employee>)
    ensures multiset(InsertionSort(order, s)) == multiset(s)
  {
    if |s| > 0 {
      var prefix, last := s[..|s| - 1], s[|s| - 1];
      InsertionSortPermutes(order, prefix);
      var sortedPrefix := InsertionSort(order, prefix);
      InsertPermutes(order, sortedPrefix, last);
      assert InsertionSort(order, s) == Insert(order, sortedPrefix, last);
      MultisetSplitLast(s);
    }
  }

  lemma MultisetSplitLast<T>(s: seq<T>)
    requires |s| > 0
    ensures multiset(s) == multiset(s[..|s| - 1]) + multiset{s[|s| - 1]}
  {
    assert s[..|s| - 1] + [s[|s| - 1]] == s;
  }

  /** The sort leaves the elements ordered and is a permutation of its input. */
  lemma InsertionSortCorrect(order: SortOrder, s: seq<Employee>)
    ensures Ordered(order, InsertionSort(order, s))
    ensures multiset(InsertionSort(order, s)) == multiset(s)
  {
    InsertionSortOrdered(order, s);
    InsertionSortPermutes(order, s);
  }

  /** The descending sort starts with a top salary, the ascending one with a
      lowest salary. */
  lemma SortedEnds(order: SortOrder, s: seq<Employee>)
    requires |s| > 0
    ensures var sorted := InsertionSort(order, s);
      forall e :: e in s ==> match order
        case BySalaryDescending => e.salary <= sorted[0].salary
        case BySalaryAscending => sorted[0].salary <= e.salary
  {
    InsertionSortCorrect(order, s);
    var sorted := InsertionSort(order, s);
    forall e | e in s ensures InOrder(order, sorted[0], e) {
      assert e in multiset(sorted);
      var k :| 0 <= k < |sorted| && sorted[k] == e;
    }
  }

  /** `employees.slice()`: a fresh array with the same elements. */
  method Slice(employees: array<Employee>) returns (copy: array<Employee>)
    ensures fresh(copy)
    ensures copy[..] == employees[..]
  {
    copy := new Employee[employees.Length];
    for i := 0 to employees.Length
      invariant copy[..i] == employees[..i]
    {
      copy[i] := employees[i];
    }
    assert copy[..] == copy[..employees.Length];
  }

  /** `Insert` puts `x` right after the last element that may precede it,
      when all the elements after that one must follow `x`. */
  lemma {:induction false} InsertShape(order: SortOrder, s: seq<Employee>, j: nat, x: Employee)
    requires j <= |s|
    requires j == 0 || InOrder(order, s[j - 1], x)
    requires forall k :: j <= k < |s| ==> !InOrder(order, s[k], x)
    ensures Insert(order, s, x) == s[..j] + [x] + s[j..]
  {
    if j == |s| {
      assert s[..j] == s && s[j..] == [];
    } else {
      var prefix, last := s[..|s| - 1], s[|s| - 1];
      assert j > 0 ==> prefix[j - 1] == s[j - 1];
      assert forall k :: j <= k < |prefix| ==> prefix[k] == s[k];
      InsertShape(order, prefix, j, x);
      assert !InOrder(order, last, x);
      assert Insert(order, s, x) == Insert(order, prefix, x) + [last];
      assert prefix[..j] == s[..j];
      assert prefix[j..] + [last] == s[j..];
      assert prefix[..j] + [x] + prefix[j..] + [last] == s[..j] + [x] + (prefix[j..] + [last]);
    }
  }

  /** Moves `a[i]` left past the elements that must follow it, shifting
      them one place to the right. */
  method InsertAt(a: array<Employee>, order: SortOrder, i: nat)
    requires i < a.Length
    modifies a
    ensures a[..i + 1] == Insert(order, old(a[..i]), old(a[i]))
    ensures forall k :: i < k < a.Length ==> a[k] == old(a[k])
  {
    ghost var sorted := a[..i];
    var x := a[i];
    var j := i;
    while j > 0 && !InOrder(order, a[j - 1], x)
      invariant 0 <= j <= i
      invariant forall k :: 0 <= k < j ==> a[k] == sorted[k]
      invariant forall k :: j < k <= i ==> a[k] == sorted[k - 1]
      invariant forall k :: i < k < a.Length ==> a[k] == old(a[k])
      invariant forall k :: j <= k < i ==> !InOrder(order, sorted[k], x)
    {
      a[j] := a[j - 1];
      j := j - 1;
    }
    a[j] := x;
    InsertShape(order, sorted, j, x);
    Shifted(sorted, j, x, a[..i + 1]);
  }

  /** The array contents the shifting loop leaves behind, as a sequence. */
  lemma Shifted(sorted: seq<Employee>, j: nat, x: Employee, result: seq<Employee>)
    requires j <= |sorted| && |result| == |sorted| + 1
    requires forall k :: 0 <= k < j ==> result[k] == sorted[k]
    requires result[j] == x
    requires forall k :: j < k <= |sorted| ==> result[k] == sorted[k - 1]
    ensures result == sorted[..j] + [x] + sorted[j..]
  {
  }

  lemma InsertionSortStep(order: SortOrder, s: seq<Employee>, i: nat)
    requires i < |s|
    ensures InsertionSort(order, s[..i + 1]) == Insert(order, InsertionSort(order, s[..i]), s[i])
  {
    assert s[..i + 1][..i] == s[..i];
  }

  /** `a.sort(comparator)` in place, by insertion. */
  method Sort(a: array<Employee>, order: SortOrder)
    modifies a
    ensures a[..] == InsertionSort(order, old(a[..]))
  {
    ghost var input := a[..];
    for i := 0 to a.Length
      invariant a[..i] == InsertionSort(order, input[..i])
      invariant forall k :: i <= k < a.Length ==> a[k] == input[k]
    {
      InsertionSortStep(order, input, i);
      InsertAt(a, order, i);
    }
    assert a[..] == a[..a.Length] && input[..a.Length] == input;
  }

  /** `employees.slice().sort(comparator)`: the input stays as it was; the
      result is a new array holding an ordered permutation of it. */
  method SortedCopy(employees: array<Employee>, order: SortOrder) returns (sorted: array<Employee>)
    ensures fresh(sorted)
    ensures employees[..] == old(employees[..])
    ensures sorted.Length == employees.Length
    ensures Ordered(order, sorted[..])
    ensures multiset(sorted[..]) == multiset(employees[..])
  {
    sorted := Slice(employees);
    Sort(sorted, order);
    InsertionSortCorrect(order, employees[..]);
  }
}
