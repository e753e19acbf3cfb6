# Poisson-process arrival times

A Dafny model of `PoissonProcessArrivalTimes`, the arrival-time generator of
RinSim's PDPTW scenario generator. For a scenario of `length` minutes, an
announcement intensity `gai` (per hour) and a mean of `opa` orders per
announcement, `generate` does two things:

1. **Announcement sampler.** It draws exponential inter-arrival gaps,
   converts each to whole minutes (times 60, rounded half-down) and adds it
   to a running `sum`. Each `sum` below `length` becomes an announcement
   time. A zero gap is skipped once there is an announcement. A first
   announcement that already reaches `length` resets `sum` to 0 and the
   loop tries again. Otherwise the loop stops the first time `sum` reaches
   `length`.
2. **Order-count allocator.** When `opa` is a whole number `k`, every
   announcement is repeated `k` times. Otherwise `floorTimes` announcements
   get `floor(opa)` orders and `ceilTimes` get `ceiling(opa)`.
   - `floorTimes` is `(1 - ratio) * N` rounded half-down.
   - `ceilTimes` is `ratio * N` rounded half-up.
   - The list of counts is shuffled before it is assigned.

The model has three modules:

- `Rounding` (`rounding.dfy`): the `java.math.RoundingMode` modes used by
  Guava's `DoubleMath`, over exact reals. It also proves that half-down and
  half-up rounding are complementary.
- `Expansion` (`expansion.dfy`): the output shape. `Expand(times, counts)`
  is the ordered concatenation of `times[i]` repeated `counts[i]` times.
  The module proves its order, bounds and multiplicities.
- `ArrivalTimes` (`arrival_times.dfy`) holds these parts:
  - the sampler's specification, `SampleFrom`/`Announcements`;
  - the count list, `CountList`, and the possible assignments,
    `IsOrderCountAssignment`;
  - the shuffle (`Shuffle` and `Swap`), module-level methods because
    `Collections.shuffle` is library code rather than part of the class;
  - the class `PoissonProcessArrivalTimes`. Its fields are `const`, because
    the Java fields are `final`. Its methods are the steps of `generate`:
    the sampler loop, the integral branch, the construction of the count
    list, the nested loops of the fractional branch, the two branches put
    together (`Allocate`, `Generate`) and the getters. Each is proved
    against the specification functions.

The random source becomes two inputs:

- `samples` is the sequence of values `ed.sample()` returns, in hours, each
  non-negative.
- `rnd(k)` is the k-th raw draw of the random source during the shuffle.
  The shuffle reduces it modulo the current bound `i`, standing for
  `nextInt(i)`.

Because the samples are finite, the sampler returns `None` when they run out
before the loop ends. `Some(times)` is what the loop returns.

Three facts about the code shape the model:

- The constructor performs no validation.
- With `length <= 0` the loop never runs and no announcements are made.
- `HALF_DOWN` sends ties toward zero. For the non-negative values rounded
  here, that is rounding a tie down.

## Model

| member | source | states |
|---|---|---|
| `Rounding.IsMathematicalInteger` | problem/src/main/java/rinde/sim/pdptw/generator/PoissonProcessArrivalTimes.java:71 | `DoubleMath.isMathematicalInteger`: a value is integral exactly when its floor and its ceiling coincide |
| `Rounding.Floor` | problem/src/main/java/rinde/sim/pdptw/generator/PoissonProcessArrivalTimes.java:91 | the result is the greatest integer not above the argument (`RoundingMode.FLOOR`) |
| `Rounding.Ceiling` | problem/src/main/java/rinde/sim/pdptw/generator/PoissonProcessArrivalTimes.java:92 | the result is the least integer not below the argument (`RoundingMode.CEILING`) |
| `Rounding.RoundHalfUp` | problem/src/main/java/rinde/sim/pdptw/generator/PoissonProcessArrivalTimes.java:97-98 | the result is within one half of the argument, a tie is rounded away from zero, and a non-negative argument gives a non-negative result |
| `Rounding.RoundHalfDown` | problem/src/main/java/rinde/sim/pdptw/generator/PoissonProcessArrivalTimes.java:49-50 | the result is within one half of the argument, a tie is rounded toward zero, and a non-negative argument gives a non-negative result |
| `Rounding.ComplementaryRounding` | problem/src/main/java/rinde/sim/pdptw/generator/PoissonProcessArrivalTimes.java:95-99 | for 0 <= x <= n, HALF_DOWN(n - x) + HALF_UP(x) == n, ties included |
| `Rounding.Scaled` | problem/src/main/java/rinde/sim/pdptw/generator/PoissonProcessArrivalTimes.java:95-98 | the product of a ratio in [0, 1] and a size n lies in [0, n] |
| `Rounding.ScaledIsProduct` | problem/src/main/java/rinde/sim/pdptw/generator/PoissonProcessArrivalTimes.java:95-98 | `Scaled(r, n)` equals the product `r * n` used by the source |
| `Rounding.ScaledComplement` | problem/src/main/java/rinde/sim/pdptw/generator/PoissonProcessArrivalTimes.java:95-98 | (1 - r) * n == n - r * n |
| `Expansion.Repeat` | problem/src/main/java/rinde/sim/pdptw/generator/PoissonProcessArrivalTimes.java:108-110 | the inner loop adds `max(k, 0)` elements, each equal to the announcement time |
| `Expansion.Uniform` | problem/src/main/java/rinde/sim/pdptw/generator/PoissonProcessArrivalTimes.java:102-103 | `nCopies(n, k)` has n elements, each equal to k |
| `Expansion.Expand` | problem/src/main/java/rinde/sim/pdptw/generator/PoissonProcessArrivalTimes.java:106-112 | the output has as many elements as the counts yield orders, and every element is one of the announcement times |
| `Expansion.ExpandSnoc` | problem/src/main/java/rinde/sim/pdptw/generator/PoissonProcessArrivalTimes.java:107-111 | one more pass of the outer loop appends exactly the repeats of the next announcement |
| `Expansion.TotalOrdersUniform` | problem/src/main/java/rinde/sim/pdptw/generator/PoissonProcessArrivalTimes.java:74-80 | n announcements with k orders each yield `n * max(k, 0)` orders |
| `Expansion.TotalOrdersOfTwoValues` | problem/src/main/java/rinde/sim/pdptw/generator/PoissonProcessArrivalTimes.java:101-111 | if every count is f or f + 1, the number of orders depends only on how many of each there are, so no shuffle can change it |
| `Expansion.UniformMultiplicity` | problem/src/main/java/rinde/sim/pdptw/generator/PoissonProcessArrivalTimes.java:102-103 | `nCopies(n, k)` holds k exactly n times and nothing else |
| `Expansion.TwoValueList` | problem/src/main/java/rinde/sim/pdptw/generator/PoissonProcessArrivalTimes.java:101-103 | fl copies of f followed by cl copies of f + 1 has fl + cl elements: f before position fl, f + 1 from there on, with multiplicities fl and cl |
| `Expansion.TwoValueTotal` | problem/src/main/java/rinde/sim/pdptw/generator/PoissonProcessArrivalTimes.java:101-111 | any permutation of that list has fl + cl counts, each f or f + 1, yielding `max(f,0)*fl + max(f+1,0)*cl` orders |
| `Expansion.RepeatMultiplicity` | problem/src/main/java/rinde/sim/pdptw/generator/PoissonProcessArrivalTimes.java:108-110 | the inner loop adds the announcement time `max(k, 0)` times and no other value |
| `Expansion.ExpandMultiplicity` | problem/src/main/java/rinde/sim/pdptw/generator/PoissonProcessArrivalTimes.java:106-112 | with strictly increasing announcement times, time i occurs in the output exactly `max(counts[i], 0)` times |
| `Expansion.ExpandNonDecreasing` | problem/src/main/java/rinde/sim/pdptw/generator/PoissonProcessArrivalTimes.java:106-112 | expanding non-decreasing announcement times gives a non-decreasing output |
| `Expansion.ExpandInHorizon` | problem/src/main/java/rinde/sim/pdptw/generator/PoissonProcessArrivalTimes.java:106-112 | expanding times in [0, length) gives times in [0, length) |
| `ArrivalTimes.Gap` | problem/src/main/java/rinde/sim/pdptw/generator/PoissonProcessArrivalTimes.java:49-50 | a non-negative sample gives a non-negative gap in whole minutes |
| `ArrivalTimes.SampleFrom` | problem/src/main/java/rinde/sim/pdptw/generator/PoissonProcessArrivalTimes.java:46-68 | the sampler loop from a state `(times, sum)` on the remaining samples, the reference definition the loop is proved against; it only ever adds announcements to `times` |
| `ArrivalTimes.Announcements` | problem/src/main/java/rinde/sim/pdptw/generator/PoissonProcessArrivalTimes.java:46-68 | the sampler run from `sum = 0` with no announcements: for non-negative samples its result is strictly increasing and in [0, length), non-empty when length > 0, and empty when length <= 0 |
| `ArrivalTimes.SampleFromKeepsState` | problem/src/main/java/rinde/sim/pdptw/generator/PoissonProcessArrivalTimes.java:46-68 | from any state satisfying the loop invariant, the sampler only extends the announcements. Its result is strictly increasing and in [0, length), and it is non-empty when length > 0 |
| `ArrivalTimes.RetryOnFirstOverflow` | problem/src/main/java/rinde/sim/pdptw/generator/PoissonProcessArrivalTimes.java:58-63 | a first gap that reaches `length` is discarded and sampling restarts from 0 on the next sample |
| `ArrivalTimes.SkipZeroGap` | problem/src/main/java/rinde/sim/pdptw/generator/PoissonProcessArrivalTimes.java:52-54 | once there is an announcement, a zero gap is ignored: the sample is consumed and the state is kept |
| `ArrivalTimes.FirstZeroGap` | problem/src/main/java/rinde/sim/pdptw/generator/PoissonProcessArrivalTimes.java:52-57 | a zero first gap is not ignored: with length > 0 it becomes an announcement at time 0 |
| `ArrivalTimes.Ratio` | problem/src/main/java/rinde/sim/pdptw/generator/PoissonProcessArrivalTimes.java:93 | `opa - floor` lies in [0, 1), and is 0 exactly when `opa` is a mathematical integer |
| `ArrivalTimes.FloorTimes` | problem/src/main/java/rinde/sim/pdptw/generator/PoissonProcessArrivalTimes.java:95-96 | `floorTimes`, `(1 - ratio) * N` rounded half-down, is at most N, and is N when `opa` is whole |
| `ArrivalTimes.CeilTimes` | problem/src/main/java/rinde/sim/pdptw/generator/PoissonProcessArrivalTimes.java:97-98 | `ceilTimes`, `ratio * N` rounded half-up, is at most N, and is 0 when `opa` is whole |
| `ArrivalTimes.FloorTimesNearest` | problem/src/main/java/rinde/sim/pdptw/generator/PoissonProcessArrivalTimes.java:88-96 | `floorTimes` is within one half of `(1 - ratio) * N`: the share of announcements with the floor count is the nearest whole number to `1 - ratio` of them |
| `ArrivalTimes.CeilTimesNearest` | problem/src/main/java/rinde/sim/pdptw/generator/PoissonProcessArrivalTimes.java:88-98 | `ceilTimes` is within one half of `ratio * N`: the share of announcements with the ceiling count is the nearest whole number to `ratio` of them, so the ratio is kept as far as possible |
| `ArrivalTimes.TotalNearMean` | problem/src/main/java/rinde/sim/pdptw/generator/PoissonProcessArrivalTimes.java:82-111 | for a fractional, non-negative `opa`, the total number of orders over N announcements is within one half of `opa * N`, whatever the shuffle chose |
| `ArrivalTimes.SplitNearMean` | problem/src/main/java/rinde/sim/pdptw/generator/PoissonProcessArrivalTimes.java:95-99 | `floor * floorTimes + (floor + 1) * ceilTimes` is within one half of `opa * N` |
| `ArrivalTimes.FractionalTotal` | problem/src/main/java/rinde/sim/pdptw/generator/PoissonProcessArrivalTimes.java:101-111 | for a fractional, non-negative `opa`, any assignment yields `floor * floorTimes + (floor + 1) * ceilTimes` orders |
| `ArrivalTimes.SplitIsExact` | problem/src/main/java/rinde/sim/pdptw/generator/PoissonProcessArrivalTimes.java:95-99 | `floorTimes + ceilTimes == N` for every N and every mean: over exact reals, the `checkState` never fails |
| `ArrivalTimes.CeilingIsFloorPlusOne` | problem/src/main/java/rinde/sim/pdptw/generator/PoissonProcessArrivalTimes.java:91-92 | for a non-integral mean, `ceiling == floor + 1` |
| `ArrivalTimes.CountList` | problem/src/main/java/rinde/sim/pdptw/generator/PoissonProcessArrivalTimes.java:101-103 | the count list before the shuffle has one entry per announcement, each `floor` or `ceiling` |
| `ArrivalTimes.IsOrderCountAssignment` | problem/src/main/java/rinde/sim/pdptw/generator/PoissonProcessArrivalTimes.java:71-80 | the assignments the two branches can produce (`opa` for every announcement when it is whole, otherwise any permutation of the count list, line 104); any such assignment has one count per announcement |
| `ArrivalTimes.CountListFacts` | problem/src/main/java/rinde/sim/pdptw/generator/PoissonProcessArrivalTimes.java:101-103 | the unshuffled count list has N entries. The first `floorTimes` are `floor` and the rest `floor + 1`, with multiplicities `floorTimes` and `ceilTimes` |
| `ArrivalTimes.IntegralCountFacts` | problem/src/main/java/rinde/sim/pdptw/generator/PoissonProcessArrivalTimes.java:71-80 | with a whole `opa`, every announcement gets exactly `opa` orders and the output has `N * max(opa, 0)` elements |
| `ArrivalTimes.FractionalCountFacts` | problem/src/main/java/rinde/sim/pdptw/generator/PoissonProcessArrivalTimes.java:91-111 | with a fractional `opa`, any shuffled count list gives each announcement `floor` or `ceiling` orders. The output has `floor*floorTimes + ceiling*ceilTimes` elements (negative counts yield none) |
| `ArrivalTimes.Swap` | problem/src/main/java/rinde/sim/pdptw/generator/PoissonProcessArrivalTimes.java:104 | exchanges two list elements and changes nothing else |
| `ArrivalTimes.Shuffle` | problem/src/main/java/rinde/sim/pdptw/generator/PoissonProcessArrivalTimes.java:104 | whatever the random draws, the shuffled list is a permutation of the original |
| `ArrivalTimes.PoissonProcessArrivalTimes.ExpandCounts` | problem/src/main/java/rinde/sim/pdptw/generator/PoissonProcessArrivalTimes.java:106-111 | the nested loops of the fractional branch build exactly `Expand(arrivalTimes, orderCountList)` |
| `ArrivalTimes.PoissonProcessArrivalTimes.constructor` | problem/src/main/java/rinde/sim/pdptw/generator/PoissonProcessArrivalTimes.java:34-39 | stores the three arguments unchanged, with no validation |
| `ArrivalTimes.PoissonProcessArrivalTimes.SampleAnnouncements` | problem/src/main/java/rinde/sim/pdptw/generator/PoissonProcessArrivalTimes.java:44-68 | the sampler loop computes `Announcements`. Its result is strictly increasing and in [0, length). It is non-empty when length > 0 and empty when length <= 0 |
| `ArrivalTimes.PoissonProcessArrivalTimes.RepeatEach` | problem/src/main/java/rinde/sim/pdptw/generator/PoissonProcessArrivalTimes.java:71-80 | the integral branch repeats each announcement `opa` times, in announcement order |
| `ArrivalTimes.PoissonProcessArrivalTimes.NewCountList` | problem/src/main/java/rinde/sim/pdptw/generator/PoissonProcessArrivalTimes.java:91-103 | computes `floor`, `ceiling`, `floorTimes` and `ceilTimes` and satisfies `checkState`. It returns a fresh N-element list equal to `CountList` |
| `ArrivalTimes.PoissonProcessArrivalTimes.Allocate` | problem/src/main/java/rinde/sim/pdptw/generator/PoissonProcessArrivalTimes.java:91-111 | the fractional branch: the counts it assigns are a permutation of the count list, and the output is their expansion |
| `ArrivalTimes.PoissonProcessArrivalTimes.Generate` | problem/src/main/java/rinde/sim/pdptw/generator/PoissonProcessArrivalTimes.java:41-113 | the output expands the announcements by an order-count assignment valid for `opa`. It is non-decreasing and in [0, length). Each announcement occurs exactly as often as its count, each count is `floor` or `ceiling`, and the length is `N*k` (integral) or `floor*floorTimes + ceiling*ceilTimes` |
| `ArrivalTimes.PoissonProcessArrivalTimes.OutputFacts` | problem/src/main/java/rinde/sim/pdptw/generator/PoissonProcessArrivalTimes.java:106-112 | expanding sampler output by any counts gives non-decreasing times in [0, length), each announcement occurring as often as its count |
| `ArrivalTimes.PoissonProcessArrivalTimes.GetScenarioLength` | problem/src/main/java/rinde/sim/pdptw/generator/PoissonProcessArrivalTimes.java:115-117 | returns the scenario length given to the constructor |
| `ArrivalTimes.PoissonProcessArrivalTimes.GetOrdersPerAnnouncement` | problem/src/main/java/rinde/sim/pdptw/generator/PoissonProcessArrivalTimes.java:119-121 | returns the orders per announcement given to the constructor |
| `ArrivalTimes.PoissonProcessArrivalTimes.GetGlobalAnnouncementIntensity` | problem/src/main/java/rinde/sim/pdptw/generator/PoissonProcessArrivalTimes.java:123-125 | returns the announcement intensity given to the constructor |

## Left out

- The exponential distribution is not modelled: its construction from `1 / gai`, its reseeding from `rng.nextLong()` and `sample()` (lines 44-45, 49). Its values are the `samples` input, each assumed non-negative as an exponential sample is. `gai` is therefore only stored and returned.
- `ArrivalTimes.PoissonProcessArrivalTimes.Generate`: does not model the exceptions that depend on `gai`. With `gai < 0` the mean `1 / gai` is negative and `new ExponentialDistribution` throws. With `gai == 0` the mean is infinite. The first sample drawn is infinite or NaN and `roundToLong` throws, so `generate` fails whenever `length > 0`. With `length <= 0` no sample is drawn and `generate` returns an empty list, as `Generate` does. `Generate` returns a result for every `gai` and `length`.
- Floating point is not modelled. `sample * 60`, `opa - floor`, `(1 - ratio) * N` and `ratio * N` are exact reals, so the IEEE-754 rounding that could in principle make the `checkState` on line 99 fail is outside the model.
- `ArrivalTimes.PoissonProcessArrivalTimes.SampleAnnouncements`: the Java loop has no iteration bound. The model bounds it by the number of supplied samples and returns `None` when they run out; nothing is claimed about termination of the unbounded loop.
- `ArrivalTimes.Shuffle`: `Collections.shuffle` with a `RandomAdaptor` is JDK code outside the repository. It is modelled as the JDK's swap loop for random-access lists, with `nextInt(i)` taken as `rnd(k) % i`. Only the permutation property is claimed, not uniformity.
- `ArrivalTimes.PoissonProcessArrivalTimes.Generate`: the ghost `counts` names the assignment the shuffle produced. The contract does not say which permutation a given `rnd` yields.
- Integer widths are not modelled: the `long` overflow of `sum += nt`, the `ArithmeticException` that `DoubleMath.roundToLong`/`roundToInt` throw outside the `long`/`int` range, and the `int` loop counter `i < opa` for `opa >= 2^31`. NaN and infinite `opa` are also left out, because reals have no such values.
- The UAV example program (`example/src/main/java/com/github/rinde/rinsim/examples/uav/UavExample.java`) is simulator and UI wiring over the RinSim framework and is not part of this model.
