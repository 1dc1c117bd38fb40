# Promise aggregates, groupBy and list exercises — a Dafny model

This project models the logic of a JavaScript training repository. It has
three parts:

- the hand-written promise combinators `TrainingPromise.sequential`, `race`,
  `all` and `any`, together with the start/fulfil/reject log that their
  tests record;
- the curried `groupBy(subReducer, getInitial)(collection, key)` and the
  reducers built on it (`pushReducer`, `maxPriceReducer`), plus the logical
  reducers `allTruthy` / `anyTruthy` and the function pipe `execute`;
- the employee-list exercises: a bonus total computed by a `for` loop and by
  a filter/map/reduce chain, `find`, `filter` with the `check` e-mail suffix
  test, `map` to phone numbers, the richest American, and sorting a
  `slice()` copy by salary.

Files:

- `wrappers.dfy` — `Option` (`None` plays JavaScript's `undefined`, or a
  promise that never settles) and a map lookup `Get`.
- `aggregates.dfy` — the combinators on an abstract timeline. A started
  promise is a `Settlement(time, outcome)`. A deferred task for `sequential`
  is a `Task(delay, outcome)`. A `new Promise((resolve, reject) => …)` that
  several callbacks may settle is `FirstToSettle`: the earliest call wins,
  and on a tie the call registered first. `sequential` and `race` are
  functions. `all` and `any` are methods whose loops walk the `reduce` chain
  link by link and append to the `values` or `rejections` array, as the
  source does.
- `group_by.dfy` — `groupBy` as a method that updates a local dictionary
  (`map<K, A>`) item by item. It initialises an entry when the entry is
  missing or falsy, then overwrites it with the sub-reduction. `GroupFold` is
  the per-key reference that the method is proved against.
- `reducers.dfy` — `allTruthy` / `anyTruthy` (including how many predicates
  the short-circuit actually calls) and `execute`. It also gives JavaScript's
  `%` (the truncating remainder), the test predicates, and the two `groupBy`
  instantiations.
- `functional_data.dfy` — the `Employee` record, `filter` / `map` / `reduce`
  / `find`, the bonus loop and chain, `substr` and `check`,
  `Math.max.apply`, and an in-place sort on a copied array.

Modelling choices:

- JavaScript falsiness decides `groupBy`'s guard, and there it is a parameter
  `falsy` of the model: arrays are never falsy, and the number 0 is. The
  `&&` and `||` of the logical reducers and the `filter` / `find` callbacks
  test truthiness too, but every predicate there returns a boolean, so the
  model uses booleans.
- Salaries are integers. The bonus `salary * 0.2` is an exact real, so the
  loop and the chain add the same values in the same order.
- The `all` test expects `toEqual(f2)`, where `f2` is an identifier that is
  never declared. The model states the evidently meant string reason `"f2"`.
- `isOdd` is `n % 2 === 1` with JavaScript's remainder, so it is false for
  every negative number (`IsOddOnlyForPositive`). No test expectation
  depends on this.

## Model

| member | source | states |
|---|---|---|
| Aggregates.Link | src/promises/aggregates.spec.js:38 | a rejected aggregate is passed on unchanged, so the task is never started; otherwise the task starts when the aggregate settles, the log gains exactly its start and its settlement, and the result rejects exactly when the task does |
| Aggregates.Sequential | src/promises/aggregates.spec.js:36-39 | the aggregate rejects exactly when some task rejects; it finishes no later than the sum of all delays and logs at most two entries per task |
| Aggregates.SequentialFulfils | src/promises/aggregates.spec.js:36-39 | when every task fulfils, `sequential` fulfils with the tasks' values in input order, after the sum of the delays, and the log alternates start:i, fulfill:i; for no tasks it fulfils with `[]` at once |
| Aggregates.SequentialRejects | src/promises/aggregates.spec.js:36-39 | when task j is the first to reject, the result rejects with j's reason after the delays of tasks 0..j, and the log is the start/fulfill pairs of 0..j-1 followed by start:j, reject:j |
| Aggregates.NoStartAfterRejection | src/promises/aggregates.spec.js:37-38 | no task after the first rejecting one appears in the log, in particular none is started |
| Aggregates.SequentialKeepsInputOrder | src/promises/aggregates.spec.js:41-51 | delays 300/200/100 give `['f1','f2','f3']` at time 600 with the full alternating log |
| Aggregates.SequentialStopsAtRejection | src/promises/aggregates.spec.js:53-63 | a rejection of the second task gives reason 's2' and the log start:f1, fulfill:f1, start:s2, reject:s2 |
| Aggregates.EarliestIndex | src/promises/aggregates.spec.js:69-70 | the chosen settle attempt is no later than any other, and strictly earlier than every attempt registered before it |
| Aggregates.FirstToSettle | src/promises/aggregates.spec.js:69-70 | a settle-once promise adopts the earliest of its resolve/reject calls and never settles when there is none |
| Aggregates.Race | src/promises/aggregates.spec.js:68-71 | `race` settles like its earliest-settling input, with that input's kind and payload, and `race([])` never settles |
| Aggregates.RaceAdoptsEarliest | src/promises/aggregates.spec.js:68-71 | an input that settles strictly before all others decides the race, whatever its index |
| Aggregates.RaceScenarios | src/promises/aggregates.spec.js:73-113 | the four race tests: 's1', 'f1', 's2' and 'f2' win, and no input gives no settlement |
| Aggregates.LatestTime | src/promises/aggregates.spec.js:121 | the chain `aggr.then(_ => p)` settles when the last of its inputs has settled |
| Aggregates.FirstRejection | src/promises/aggregates.spec.js:120-122 | the lowest index of a rejecting input, and absent exactly when every input fulfils |
| Aggregates.All | src/promises/aggregates.spec.js:118-124 | `all` fulfils with the values in input order once every input has fulfilled; otherwise it rejects with the lowest-index rejection's reason, at a time no earlier than that input and every input before it |
| Aggregates.AllKeepsInputOrder | src/promises/aggregates.spec.js:126-137 | settle times 100/300/200 still give `['s1','s2','s3']` |
| Aggregates.AllRejectsWithFirstRejection | src/promises/aggregates.spec.js:139-148 | the test's inputs reject with 'f2' at 300, and so do inputs where an earlier, slower input delays the rejection |
| Aggregates.RejectedReasons | src/promises/aggregates.spec.js:159-161 | `rejections` never outgrows `promises`; when every input rejects it holds all reasons in input order, and only then does it reach `promises.length` |
| Aggregates.RejectingIndicesExact | src/promises/aggregates.spec.js:159-161 | the positions listed as rejecting are exactly the rejecting inputs: each one rejects, they increase strictly, and none is missing |
| Aggregates.RejectedReasonsInOrder | src/promises/aggregates.spec.js:159-161 | for any inputs, `rejections` holds one reason per rejecting input, the j-th being the reason of the j-th rejecting input in input order |
| Aggregates.ResolveCalls | src/promises/aggregates.spec.js:167-169 | one `resolve` call per fulfilling input, with its value and time, and none when every input rejects |
| Aggregates.EarliestResolveCall | src/promises/aggregates.spec.js:167-169 | of the resolve calls, the one from the earliest fulfilment wins |
| Aggregates.Any | src/promises/aggregates.spec.js:154-171 | `any` fulfils with the earliest fulfilment whenever some input fulfils, even after rejections; it rejects only when every input rejects, with all reasons in input order, once the last input has settled; `any([])` never settles |
| Aggregates.AnyFulfilsDespiteRejections | src/promises/aggregates.spec.js:173-182 | 's1' at 300 wins over rejections at 100 and 200 |
| Aggregates.AnyRejectsInInputOrder | src/promises/aggregates.spec.js:184-195 | all-rejecting inputs give `['f1','f2','f3']` although 'f2' settles first |
| Grouping.ItemsWithKey | src/functions/group-by.js:2-4 | the items of one key, drawn from the collection; empty exactly when no item has that key |
| Grouping.GroupFold | src/functions/group-by.js:4-7 | a key's entry is absent until its first item arrives |
| Grouping.FoldLeft | src/functions/group-by.js:2-9 | the plain left fold `reduce(subReducer, initial)`; it has no contract of its own, and `TruthyGroupIsFold` states when a group equals it |
| Grouping.GroupBy | src/functions/group-by.js:1-9 | the dictionary has an entry for k exactly when some item has key k, and each entry holds that key's items reduced in collection order, restarting from the initial value at a missing or falsy accumulator; the empty collection gives the empty dictionary |
| Grouping.OtherKeyUnchanged | src/functions/group-by.js:7 | visiting an item leaves the entries of all other keys as they were |
| Grouping.OwnKeyReduced | src/functions/group-by.js:4-7 | visiting an item applies one sub-reduction to its own key's entry, starting from the initial value when that entry was missing or falsy |
| Grouping.ItemsWithKeyAppend | src/functions/group-by.js:2-3 | one more item extends the item list of its own key only |
| Grouping.TruthyGroupIsFold | src/functions/group-by.js:4-7 | while no intermediate accumulator is falsy, a group is the plain left fold of its items from the initial value |
| Grouping.FalsyGroupRestarts | src/functions/group-by.js:4-5 | after a falsy accumulator, the next item is reduced into a fresh initial value |
| Grouping.FalsyResetChangesTheResult | src/functions/group-by.js:4-5 | for a product reducer from 1 over [0, 7] the falsiness guard gives 7, where the plain fold gives 0 |
| Reducers.JsRem | src/functions/reducers.spec.js:76-77 | `%` keeps the sign of the dividend and is smaller than the divisor in magnitude |
| Reducers.JsRemCongruent | src/functions/reducers.spec.js:76-77 | the dividend and JavaScript's remainder differ by a multiple of the divisor, which with `JsRem`'s sign and magnitude bounds fixes the value for negative dividends too |
| Reducers.IsEven | src/functions/reducers.spec.js:76 | `n % 2 === 0`; it has no contract of its own, and `IsOddOnlyForPositive` states that it holds exactly for even numbers |
| Reducers.IsOdd | src/functions/reducers.spec.js:77 | `n % 2 === 1`; it has no contract of its own, and `IsOddOnlyForPositive` states that it holds exactly for positive odd numbers |
| Reducers.IsOddOnlyForPositive | src/functions/reducers.spec.js:76-77 | `isOdd` holds exactly for positive odd numbers; `isEven` holds exactly for even numbers |
| Reducers.AllTruthy | src/functions/reducers.spec.js:88-89 | true exactly when every predicate holds (so true for none); predicate i is called exactly when all before it hold |
| Reducers.AnyTruthy | src/functions/reducers.spec.js:102-103 | true exactly when some predicate holds (so false for none); predicate i is called exactly when all before it fail |
| Reducers.AllTruthyStaysFalse | src/functions/reducers.spec.js:89 | once the `&&` accumulator is false, further predicates change neither the result nor the calls made |
| Reducers.AnyTruthyStaysTrue | src/functions/reducers.spec.js:103 | once the `or` accumulator is true, further predicates change neither the result nor the calls made |
| Reducers.AllTruthyExpectations | src/functions/reducers.spec.js:91-95 | the five `allTruthy` expectations |
| Reducers.AnyTruthyExpectations | src/functions/reducers.spec.js:105-109 | the five `anyTruthy` expectations |
| Reducers.Execute | src/functions/reducers.spec.js:114-115 | the pipe `fnSequence.reduce((value, fn) => fn(value), init)`; it has no contract of its own, and `ExecuteConcat` and `ExecuteFirst` state how it composes |
| Reducers.ExecuteConcat | src/functions/reducers.spec.js:114-115 | running a pipe of `fs + gs` is running `gs` on the result of `fs`; with `gs = [g]` this is `execute(fs + [g], x) = g(execute(fs, x))` |
| Reducers.ExecuteFirst | src/functions/reducers.spec.js:114-115 | the first function of the pipe is applied first |
| Reducers.PipelineExpectations | src/functions/reducers.spec.js:119-136 | the two pipelines map 2 to 3 and 5 to 2920 |
| Reducers.PushReducer | src/functions/reducers.spec.js:27 | `push` keeps the list as it was and adds the item as the one new last element |
| Reducers.PushGroupIsItems | src/functions/reducers.spec.js:27-29 | with `pushReducer` from `[]`, a group is its items in collection order |
| Reducers.TotalSizeUpdate | src/functions/reducers.spec.js:29-34 | replacing one group changes the total group size by the difference of that group's lengths |
| Reducers.PartitionSizes | src/functions/reducers.spec.js:29-34 | splitting a collection by key keeps every item exactly once: the group sizes add up to the collection size |
| Reducers.GroupLists | src/functions/reducers.spec.js:27-34 | `groupBy(pushReducer, () => [])` gives each key that occurs the sublist of its items in original order, and the group sizes sum to the collection size |
| Reducers.MaxPriceReducer | src/functions/reducers.spec.js:67 | one step gives a value at least the running maximum and at least the item's price, and equal to one of the two |
| Reducers.MaxPriceGroup | src/functions/reducers.spec.js:67-69 | a max-price group is at least 0, at least every price in it, and equal to 0 or to one of its prices |
| Reducers.GroupMaxPrices | src/functions/reducers.spec.js:67-72 | `groupBy(maxPriceReducer, () => 0)` gives each key that occurs the maximum price of its items, floored at 0 |
| FunctionalData.Filter | src/functions/functional-data.spec.js:34-41 | `filter` keeps an element exactly when it passes and occurs in the input, and never gives more than it was given; the counts are `FilterCounts` |
| FunctionalData.FilterCounts | src/functions/functional-data.spec.js:34-41 | `filter` keeps every occurrence of a passing element and no occurrence of a failing one, so duplicates are kept and counts are preserved |
| FunctionalData.Map | src/functions/functional-data.spec.js:43-44 | `map` gives one result per element at the same index |
| FunctionalData.Sum | src/functions/functional-data.spec.js:45-47 | the `reduce` with `+` from 0; a sum of non-negative bonuses is non-negative |
| FunctionalData.FilterIsSubsequence | src/functions/functional-data.spec.js:38-41 | a filter result is a subsequence of its input |
| FunctionalData.SubsequenceNotLonger | src/functions/functional-data.spec.js:49-50 | a subsequence is never longer than the list it comes from |
| FunctionalData.FilterThenFilter | src/functions/functional-data.spec.js:34-41 | filtering by p and then by q equals filtering by `p && q` |
| FunctionalData.SecondFilterNarrows | src/functions/functional-data.spec.js:34-50 | the employees below 5000 are a subsequence of the German employees, so they are never more |
| FunctionalData.BonusPipeline | src/functions/functional-data.spec.js:59-68 | the chain `filter(DE).filter(salary < 5000).map(bonus).reduce(+, 0)`; it has no contract of its own, and `BonusPipelineAppend` states what each employee adds to it |
| FunctionalData.BonusNonNegative | src/functions/functional-data.spec.js:59-68 | the chained total is never negative when no salary is |
| FunctionalData.BonusPipelineAppend | src/functions/functional-data.spec.js:59-68 | one more employee adds its bonus to the chain's total exactly when it is German and earns below 5000 |
| FunctionalData.TotalBonusLoop | src/functions/functional-data.spec.js:16-22 | the `for` loop total equals the filter/filter/map/reduce total (step by step and chained are the same composition) |
| FunctionalData.LoopConditionIsBothFilters | src/functions/functional-data.spec.js:19 | the loop's single test selects the same employees as the two chained filters, so both totals sum the same bonuses |
| FunctionalData.Find | src/functions/functional-data.spec.js:77-90 | `find` gives the first element that satisfies the predicate, and `undefined` exactly when none does |
| FunctionalData.FirstIndex | src/functions/functional-data.spec.js:77-79 | the scan of `find` meets only non-matching elements before its stop, and stops at a match when there is one |
| FunctionalData.FindById | src/functions/functional-data.spec.js:77-81 | the employee found by id has that id |
| FunctionalData.Substr | src/functions/functional-data.spec.js:105 | `substr` with a start inside the string and enough length is the suffix from that start; a negative start counts from the end |
| FunctionalData.Check | src/functions/functional-data.spec.js:104-106 | `check(email, domain)` holds exactly when `email` ends with `domain`; a domain longer than the email gives false |
| FunctionalData.EmployeesWithDomain | src/functions/functional-data.spec.js:107-109 | the Gmail filter keeps exactly the employees whose e-mail ends with the domain, each as often as it occurs in the list |
| FunctionalData.PhoneNumbers | src/functions/functional-data.spec.js:146-149 | the phone numbers, one per employee, in the same order |
| FunctionalData.MathMax | src/functions/functional-data.spec.js:162-164 | `Math.max` over the salaries is one of them and at least every one; an empty list has none (`-Infinity`) |
| FunctionalData.RichestUSEmployee | src/functions/functional-data.spec.js:162-168 | the employee found is American and has the maximum salary of the whole list; there is none exactly when every American earns less than someone |
| FunctionalData.Insert | src/functions/functional-data.spec.js:120-122 | one insertion step of the sort adds exactly one element; `InsertPermutes` and `InsertOrdered` state which one and where |
| FunctionalData.InsertionSort | src/functions/functional-data.spec.js:120-122 | the sorted list has the input's length; `InsertionSortCorrect` states that it is ordered and a permutation |
| FunctionalData.InsertPermutes | src/functions/functional-data.spec.js:118-141 | inserting one employee into a list adds exactly that element |
| FunctionalData.InsertOrdered | src/functions/functional-data.spec.js:118-141 | inserting into a list in comparator order keeps it in comparator order |
| FunctionalData.InsertionSortOrdered | src/functions/functional-data.spec.js:118-141 | inserting each employee in turn leaves the list in comparator order |
| FunctionalData.InsertionSortPermutes | src/functions/functional-data.spec.js:118-141 | the sorted list holds exactly the input employees, each as often as in the input |
| FunctionalData.InsertionSortCorrect | src/functions/functional-data.spec.js:118-141 | the sorted list is in comparator order and a permutation of the input |
| FunctionalData.SortedEnds | src/functions/functional-data.spec.js:124-141 | the descending sort starts with a top salary, the ascending one with a lowest salary |
| FunctionalData.InsertShape | src/functions/functional-data.spec.js:120-122 | inserting puts the element right after the last element that may precede it |
| FunctionalData.InsertAt | src/functions/functional-data.spec.js:120-122 | one insertion pass over the array leaves the inserted prefix and does not touch the rest |
| FunctionalData.Sort | src/functions/functional-data.spec.js:120-122 | sorting the array in place leaves the comparator-ordered permutation of its old contents |
| FunctionalData.Slice | src/functions/functional-data.spec.js:119 | `slice()` gives a new array with the same elements |
| FunctionalData.SortedCopy | src/functions/functional-data.spec.js:118-141 | sorting a `slice()` copy leaves `employees` unchanged and gives a new array of the same length, a permutation ordered by salary (descending for `b - a`, ascending for `a - b`) |

## Left out

- The coroutine driver `async` is imported from a module that is not part of
  this model. The generator scenarios in src/coroutines/coroutines.spec.js
  and the native `async`/`await` tests in src/coroutines/async-await.spec.js
  depend on it, on the JavaScript runtime and on the mock API.
- data.ts/api.ts is a `setTimeout` wrapper with random latency over a
  database module that is not part of this model: randomness and I/O.
- src/promises/api.spec.js exercises the mock API and two imported helpers
  (`zip`, `getEmployeesSalary`) whose source is not part of this model.
- src/functions/math.js rounds floating-point numbers with `Math.round`.
  Floating point is not modelled, so `getPrice`, `sumReducer` and the sum
  totals (159.45, 63.6, …) are left out. `GroupMaxPrices` takes the price as
  an integer-valued function.
- src/datatypes/prototypes.spec.js shows the host language's prototype
  lookup and float `Math` functions, not repository logic.
- The expectations that depend on the employee and shopping data files (365
  employees, 62 Germans, 17964, names, phone numbers, cities) are left out:
  those data files are not part of this model. `Employee` has no address.
- Aggregates.SequentialFulfils: task values are taken as single values.
  `result.concat(v)` splices an array value `v` into the result, so for
  array-valued tasks the source's result can be longer than the task list;
  the model appends each value as one element.
- Aggregates.Race: microtask-level ordering is ignored, including the extra
  hop of `.then(resolve).catch(reject)`. Two settlements at the same instant
  are decided by registration order.
- Aggregates.Any: the derived rejections of `item.then(resolve)` are not
  modelled; they go unobserved and do not affect the result.
- Grouping.GroupBy: `getInitial()` is modelled as a value, so the fact that
  each new group gets a fresh, unshared accumulator object holds trivially.
  Aliasing and in-place `push` on a shared array are not represented.
  Dictionary keys are values of any type, without JavaScript's coercion of
  keys to strings or its inherited `Object.prototype` properties.
- Grouping: falsiness is a parameter, so `NaN`, `""` and the other falsy
  values are covered only by the caller's choice of `falsy`.
- Reducers.JsRem: a zero divisor (`NaN` in JavaScript) is excluded by its
  precondition. The exercises only divide by 2 and 5.
- FunctionalData.Sort: the engine's sorting algorithm is not specified by the
  source, so the model sorts by insertion. Stability, and comparators that
  are not consistent, are not modelled.
- FunctionalData.RichestUSEmployee: when no American has the top salary, the
  source throws a `TypeError` reading `.phone` of `undefined`. The model
  returns `None` and does not read the phone.
- FunctionalData.Bonus: `salary * 0.2` is an exact real, not a
  double-precision product.
