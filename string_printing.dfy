/**
 * string_printing.cpp: `noThreads` threads, numbered 1..noThreads, print the
 * characters of `str` cyclically, `count` characters per turn, in
 * round-robin order.  Each thread waits on a condition until the running
 * character count falls in its window; the wait and the print that follows
 * form one atomic step here.  The standard output becomes the `printed` log.
 */
module StringPrinting {

  /** The window test of the wait predicate (without its `|| done`): the
      running count, reduced modulo one full round of `count * noThreads`
      characters, lies in `[(threadId - 1) * count, threadId * count)`.
      Exactly one thread passes it: `threadId` is in its window precisely
      when it is the turn owner, who is one of 1..noThreads. */
  predicate IsTurn(threadId: int, count: int, noThreads: int, charCount: nat): (r: bool)
    requires count > 0 && noThreads > 0
    ensures r <==> threadId == TurnOwner(count, noThreads, charCount)
  {
    var left := (threadId - 1) * count;
    var right := threadId * count;
    var modCount := charCount % (count * noThreads);
    var inWindow := left <= modCount < right;
    RoundPositionIsBlock(count, noThreads, charCount);
    DivModUnique(modCount, count, modCount / count, modCount % count);
    if inWindow then
      DivModUnique(modCount, count, threadId - 1, modCount - left);
      inWindow
    else
      assert (TurnOwner(count, noThreads, charCount) - 1) * count == (modCount / count) * count;
      inWindow
  }

  /** The wait predicate as written: the thread's window, or `done`.  It
      lets a thread through when `done` is set whether or not it is the
      thread's turn. */
  predicate WaitReleasesAsWritten(threadId: int, count: int, noThreads: int, charCount: nat, done: bool): (r: bool)
    requires count > 0 && noThreads > 0
    ensures r <==> done || threadId == TurnOwner(count, noThreads, charCount)
  {
    IsTurn(threadId, count, noThreads, charCount) || done
  }

  /** Quotient and remainder are the unique pair with `a == q * d + r` and
      `0 <= r < d`. */
  lemma DivModUnique(a: int, d: int, q: int, r: int)
    requires d > 0 && 0 <= r < d && a == q * d + r
    ensures a / d == q && a % d == r
  {
    MultipleInOpenBand(q - a / d, d);
  }

  /** The only multiple of a positive `d` strictly between `-d` and `d` is 0. */
  lemma MultipleInOpenBand(k: int, d: int)
    requires d > 0
    ensures -d < k * d < d ==> k == 0
  {
  }

  /** The thread whose turn it is after `charCount` characters: the
      `count`-character blocks go to threads 1, 2, …, noThreads, 1, 2, … */
  function TurnOwner(count: int, noThreads: int, charCount: nat): (r: int)
    requires count > 0 && noThreads > 0
    ensures 1 <= r <= noThreads
  {
    (charCount / count) % noThreads + 1
  }

  /** Division by a positive number is monotone. */
  lemma LeMonotoneDiv(a: nat, b: nat, d: int)
    requires d > 0 && a <= b
    ensures a / d <= b / d
  {
    assert (b / d - a / d) * d == (b - b % d) - (a - a % d);
    MultipleAboveMinus(b / d - a / d, d);
  }

  /** A multiple of a positive `d` above `-d` is a non-negative multiple. */
  lemma MultipleAboveMinus(k: int, d: int)
    requires d > 0
    ensures k * d > -d ==> k >= 0
  {
  }

  /** The position within the current round, divided by `count`, is the
      block number modulo `noThreads`: the window test's arithmetic and the
      block-wise owner agree. */
  lemma RoundPositionIsBlock(count: int, noThreads: int, charCount: nat)
    requires count > 0 && noThreads > 0
    ensures (charCount % (count * noThreads)) / count == (charCount / count) % noThreads
  {
    var round := count * noThreads;
    var q := charCount / round;
    var r := charCount % round;
    DivModUnique(r, count, r / count, r % count);
    assert charCount == (q * noThreads + r / count) * count + r % count;
    DivModUnique(charCount, count, q * noThreads + r / count, r % count);
    LeMonotoneDiv(r, round - 1, count);
    DivModUnique(round - 1, count, noThreads - 1, count - 1);
    DivModUnique(charCount / count, noThreads, q, r / count);
  }

  /** Each thread prints `count` consecutive characters: every character of
      one block has the same owner. */
  lemma OwnerConstantInBlock(count: int, noThreads: int, block: nat, j: int)
    requires count > 0 && noThreads > 0 && 0 <= j < count
    ensures TurnOwner(count, noThreads, block * count + j) == TurnOwner(count, noThreads, block * count)
  {
    DivModUnique(block * count + j, count, block, j);
    DivModUnique(block * count, count, block, 0);
  }

  /** Round robin: the block after thread `t`'s goes to thread `t + 1`, and
      after thread `noThreads` back to thread 1. */
  lemma NextBlockNextThread(count: int, noThreads: int, charCount: nat)
    requires count > 0 && noThreads > 0
    ensures TurnOwner(count, noThreads, charCount + count) == TurnOwner(count, noThreads, charCount) % noThreads + 1
  {
    DivModUnique(charCount + count, count, charCount / count + 1, charCount % count);
    ModSucc(charCount / count, noThreads);
  }

  /** Counting on by one, modulo `n`. */
  lemma ModSucc(b: nat, n: int)
    requires n > 0
    ensures (b + 1) % n == (b % n + 1) % n
  {
    var t := b % n;
    if t + 1 < n {
      DivModUnique(b + 1, n, b / n, t + 1);
      DivModUnique(t + 1, n, 0, t + 1);
    } else {
      DivModUnique(b + 1, n, b / n + 1, 0);
      DivModUnique(t + 1, n, 1, 0);
    }
  }

  /** Stopping releases a thread whose turn it is not: with 3 characters per
      turn and 4 threads, at count 0 it is thread 1's turn, yet once `done`
      is set the wait predicate also lets thread 2 through to print. */
  lemma StopReleasesThreadOutOfTurn()
    ensures WaitReleasesAsWritten(2, 3, 4, 0, true)
    ensures !IsTurn(2, 3, 4, 0) && TurnOwner(3, 4, 0) == 1
  {
  }

  /** One output line: the thread id and the character it printed. */
  datatype Printed = Printed(thread: int, ch: char)

  class Printer {
    /** `str`. */
    const str: string
    /** `count`: characters per turn. */
    const count: int
    /** `noThreads`. */
    const noThreads: int
    /** `done`. */
    var done: bool
    /** `currentCharCount`: characters printed so far. */
    var currentCharCount: nat
    /** `currentIndex`: the position in `str` of the next character. */
    var currentIndex: nat
    /** The output so far, one entry per line. */
    var printed: seq<Printed>

    /** `currentIndex` is the running count wrapped to the string's length,
        one line has been printed per counted character, and the `n`-th line
        carries `str[n % str.size()]`. */
    ghost predicate Valid()
      reads this
    {
      && |str| > 0 && count > 0 && noThreads > 0
      && currentIndex == currentCharCount % |str|
      && |printed| == currentCharCount
      && (forall n :: 0 <= n < |printed| ==> printed[n].ch == str[n % |str|])
    }

    /** Every line so far was printed by the thread whose turn it was. */
    ghost predicate InTurn()
      reads this
      requires Valid()
    {
      forall n :: 0 <= n < |printed| ==> printed[n].thread == TurnOwner(count, noThreads, n)
    }

    constructor (strPrint: string, charCount: int, numThreads: int)
      requires |strPrint| > 0 && charCount > 0 && numThreads > 0
      ensures Valid() && InTurn()
      ensures str == strPrint && count == charCount && noThreads == numThreads
      ensures !done && currentCharCount == 0 && printed == []
    {
      str := strPrint;
      count := charCount;
      noThreads := numThreads;
      done := false;
      currentCharCount := 0;
      currentIndex := 0;
      printed := [];
    }

    /** The print of lines 38-44: prints `str[currentIndex]`, counts it and
        advances the index, back to 0 at the end of the string. */
    method PrintCurrent(threadId: int)
      requires Valid()
      modifies this`currentCharCount, this`currentIndex, this`printed
      ensures Valid()
      ensures printed == old(printed) + [Printed(threadId, str[old(currentCharCount) % |str|])]
      ensures currentCharCount == old(currentCharCount) + 1
      ensures currentIndex < |str|
    {
      printed := printed + [Printed(threadId, str[currentIndex])];
      currentCharCount := currentCharCount + 1;
      currentIndex := currentIndex + 1;
      if currentIndex == |str| {
        currentIndex := 0;
      }
      var c := old(currentCharCount);
      if c % |str| + 1 < |str| {
        DivModUnique(c + 1, |str|, c / |str|, c % |str| + 1);
      } else {
        DivModUnique(c + 1, |str|, c / |str| + 1, 0);
      }
    }

    /** One pass of a thread's loop body as written, enabled when the wait
        predicate holds: the thread prints whether or not it is its turn. */
    method StepAsWritten(threadId: int)
      requires Valid() && 1 <= threadId <= noThreads
      requires WaitReleasesAsWritten(threadId, count, noThreads, currentCharCount, done)
      modifies this
      ensures Valid() && done == old(done)
      ensures printed == old(printed) + [Printed(threadId, str[old(currentCharCount) % |str|])]
      ensures currentCharCount == old(currentCharCount) + 1
    {
      PrintCurrent(threadId);
    }

    /** One pass of a thread's loop, enabled when it is the thread's turn or
        `done` is set.  When `done` is set the thread leaves without printing;
        otherwise it is the turn owner and prints the next character. */
    method Step(threadId: int) returns (exit: bool)
      requires Valid() && 1 <= threadId <= noThreads
      requires IsTurn(threadId, count, noThreads, currentCharCount) || done
      modifies this
      ensures Valid() && done == old(done)
      ensures exit == old(done)
      ensures exit ==> printed == old(printed) && currentCharCount == old(currentCharCount)
      ensures !exit ==>
        && threadId == TurnOwner(count, noThreads, old(currentCharCount))
        && printed == old(printed) + [Printed(threadId, str[old(currentCharCount) % |str|])]
        && currentCharCount == old(currentCharCount) + 1
      ensures old(InTurn()) ==> InTurn()
    {
      if done {
        return true;
      }
      PrintCurrent(threadId);
      return false;
    }

    /** `stop`: sets `done`; the output is left as it is. */
    method Stop()
      requires Valid()
      modifies this`done
      ensures Valid() && done
    {
      done := true;
    }
  }
}
