/**
 * The prayer-bead counter: a count that restarts after each round, a total
 * of all presses, and which of the three remembrance phrases is current.
 */
module Tasbih {

  /** The three phrases, cycled in this order. */
  const Phrases: seq<string> := ["سبحان الله", "الحمد لله", "الله أكبر"]

  /** A new count at or above this value restarts the round at 1. */
  const WrapAt: int := 33

  datatype Counter = Counter(count: int, total: int, phrase: int)

  /** The state a fresh counter starts in, and the one `reset` restores. */
  const Initial: Counter := Counter(1, 0, 0)

  /** The states the counter can be in: a count of a round and a valid phrase index. */
  predicate InRange(c: Counter) {
    1 <= c.count < WrapAt && 0 <= c.phrase < |Phrases| && c.total >= 0
  }

  /** One press of `increment`. */
  function Step(c: Counter): Counter {
    var next := c.count + 1;
    if next >= WrapAt then Counter(1, c.total + 1, (c.phrase + 1) % |Phrases|)
    else Counter(next, c.total + 1, c.phrase)
  }

  /** The state after `n` presses from the initial state. */
  function Steps(n: nat): Counter {
    if n == 0 then Initial else Step(Steps(n - 1))
  }

  /** A press adds one to the total, and either advances the count or restarts it and moves to the next phrase. */
  lemma StepEffect(c: Counter)
    requires InRange(c)
    ensures Step(c).total == c.total + 1
    ensures c.count < WrapAt - 1 ==> Step(c) == c.(count := c.count + 1, total := c.total + 1)
    ensures c.count == WrapAt - 1 ==> Step(c).count == 1
    ensures Step(c).phrase != c.phrase <==> c.count == WrapAt - 1
    ensures Step(c).phrase == if c.count == WrapAt - 1 then (c.phrase + 1) % |Phrases| else c.phrase
  {
  }

  /** Pressing keeps the counter in range: the count stays in 1..32 and the phrase index in 0..2. */
  lemma StepInRange(c: Counter)
    requires InRange(c)
    ensures InRange(Step(c))
  {
  }

  lemma NextMod3(k: nat)
    ensures (k + 1) % 3 == (k % 3 + 1) % 3
  {
  }

  /** After `r` presses into round `q` the count is `r + 1` and the phrase is `q mod 3`. */
  lemma {:induction false} StepsAt(q: nat, r: nat)
    requires r < 32
    ensures Steps(32 * q + r) == Counter(r + 1, 32 * q + r, q % 3)
    decreases q, r
  {
    if r > 0 {
      StepsAt(q, r - 1);
    } else if q > 0 {
      StepsAt(q - 1, 31);
      assert 32 * q + r - 1 == 32 * (q - 1) + 31;
      NextMod3(q - 1);
    }
  }

  /** After `n` presses the count is `n mod 32 + 1`, the total is `n` and the phrase is `(n div 32) mod 3`. */
  lemma StepsClosedForm(n: nat)
    ensures Steps(n) == Counter(n % 32 + 1, n, (n / 32) % 3)
    ensures InRange(Steps(n))
  {
    StepsAt(n / 32, n % 32);
  }

  /** Each phrase is shown for 32 presses, although the display reads "/ 33". */
  lemma RoundIs32Presses(k: nat)
    ensures Steps(32 * k).count == 1
    ensures Steps(32 * k + 31).count == 32
    ensures Steps(32 * k + 31).phrase == Steps(32 * k).phrase
    ensures Steps(32 * k + 32).phrase == (Steps(32 * k).phrase + 1) % 3
  {
    StepsAt(k, 0);
    StepsAt(k, 31);
    StepsAt(k + 1, 0);
    assert 32 * (k + 1) + 0 == 32 * k + 32;
    NextMod3(k);
  }

  /** The counter component's state. */
  class TasbihCounter {
    var count: int
    var totalCount: int
    var currentDhikrIndex: int

    function State(): Counter
      reads this
    {
      Counter(count, totalCount, currentDhikrIndex)
    }

    constructor ()
      ensures State() == Initial && InRange(State())
    {
      count, totalCount, currentDhikrIndex := 1, 0, 0;
    }

    /** The phrase currently shown. */
    function CurrentPhrase(): (p: string)
      reads this
      requires InRange(State())
      ensures p in Phrases
    {
      Phrases[currentDhikrIndex]
    }

    /** `increment`. */
    method Increment()
      requires InRange(State())
      modifies this
      ensures State() == Step(old(State()))
      ensures InRange(State())
    {
      StepInRange(State());
      var newCount := count + 1;
      totalCount := totalCount + 1;
      if newCount >= WrapAt {
        currentDhikrIndex := (currentDhikrIndex + 1) % |Phrases|;
        count := 1;
      } else {
        count := newCount;
      }
    }

    /** `reset`. */
    method Reset()
      modifies this
      ensures State() == Initial && InRange(State())
    {
      count, totalCount, currentDhikrIndex := 1, 0, 0;
    }
  }
}
