/** Model of the chat preview animation of the landing page: a fixed script of
    messages is expanded into steps (a typing indicator before every message),
    a timer walks an index through the steps and restarts after a pause, and
    each index is projected onto the bubbles shown and the typing indicator. */
module ChatPreview {

  datatype Option<T> = None | Some(value: T)

  /** Which participant a bubble belongs to: the assistant on the left, the user on the right. */
  datatype Side = Left | Right

  /** One scripted chat message; `green` highlights a bubble (an absent flag reads as false). */
  datatype Msg = Msg(side: Side, text: string, green: bool)

  /** A step of the animation: the typing indicator of one side, or the reveal
      of a message, which carries every field of that message. */
  datatype Step = Typing(side: Side) | Message(side: Side, text: string, green: bool)

  /** Milliseconds spent on a typing step, on any other step, and the extra
      pause before the script restarts. */
  const TypingDelay: nat := 900
  const MessageDelay: nat := 1400
  const LoopPause: nat := 1600

  function Min(a: nat, b: nat): (m: nat)
    ensures m <= a && m <= b && (m == a || m == b)
  {
    if a <= b then a else b
  }

  function Max(a: nat, b: nat): (m: nat)
    ensures a <= m && b <= m && (m == a || m == b)
  {
    if a <= b then b else a
  }

  /** The message step for `m`, as built by spreading the message into the step. */
  function MessageStep(m: Msg): (st: Step)
    ensures st.Message? && st.side == m.side
  {
    Message(m.side, m.text, m.green)
  }

  /** The message a message step carries; spreading it back gives the step. */
  function MsgOf(st: Step): (m: Msg)
    requires st.Message?
    ensures MessageStep(m) == st
  {
    Msg(st.side, st.text, st.green)
  }

  // ---------------------------------------------------------------------------
  // Steps

  /** The steps of a script: for every message, a typing step of its side
      followed by its message step. */
  function Steps(messages: seq<Msg>): (r: seq<Step>)
    ensures |r| == 2 * |messages|
  {
    if messages == [] then []
    else
      var m := messages[|messages| - 1];
      Steps(messages[..|messages| - 1]) + [Typing(m.side), MessageStep(m)]
  }

  /** The steps by position: an even position types for the side of message
      `i / 2`, the odd position after it reveals that message. */
  lemma {:induction false} StepsAt(messages: seq<Msg>, i: nat)
    requires i < 2 * |messages|
    ensures Steps(messages)[i] ==
      if i % 2 == 0 then Typing(messages[i / 2].side) else MessageStep(messages[i / 2])
  {
    var n := |messages| - 1;
    if i < 2 * n {
      StepsAt(messages[..n], i);
    }
  }

  /** The step list as the component builds it: pushing two steps per message. */
  method BuildSteps(messages: seq<Msg>) returns (s: seq<Step>)
    ensures s == Steps(messages)
  {
    s := [];
    for k := 0 to |messages|
      invariant s == Steps(messages[..k])
    {
      var m := messages[k];
      s := s + [Typing(m.side)];
      s := s + [MessageStep(m)];
      assert messages[..k + 1][..k] == messages[..k];
    }
    assert messages[..|messages|] == messages;
  }

  // ---------------------------------------------------------------------------
  // Transition

  /** How long the current step stays on screen. A missing step (an index
      outside the steps) does not count as typing. */
  function Delay(steps: seq<Step>, stepIndex: nat): (d: nat)
    ensures d == TypingDelay || d == MessageDelay
    ensures d == TypingDelay <==> ShowTyping(steps, stepIndex).Some?
  {
    if stepIndex < |steps| && steps[stepIndex].Typing? then TypingDelay else MessageDelay
  }

  /** The index after the timer fires: the next step, or back to the start. */
  function Next(stepIndex: nat, count: nat): (r: nat)
    ensures r == stepIndex + 1 <==> stepIndex + 1 < count
    ensures r != stepIndex + 1 ==> r == 0
    ensures r < Max(1, count)
  {
    if stepIndex + 1 < count then stepIndex + 1 else 0
  }

  /** Time from entering `stepIndex` until the index is set again: the step's
      delay, plus the loop pause when the script restarts. */
  function Wait(steps: seq<Step>, stepIndex: nat): (w: nat)
    ensures Next(stepIndex, |steps|) != 0 ==> w == Delay(steps, stepIndex)
    ensures Next(stepIndex, |steps|) == 0 ==> w == Delay(steps, stepIndex) + LoopPause
  {
    Delay(steps, stepIndex) + if stepIndex + 1 < |steps| then 0 else LoopPause
  }

  /** The index after `k` firings of the timer, starting from the initial index 0. */
  function IndexAfter(count: nat, k: nat): (r: nat)
    ensures r < Max(1, count)
  {
    if k == 0 then 0 else Next(IndexAfter(count, k - 1), count)
  }

  /** Total time spent on the first `j` indices of one pass. */
  function TotalWait(steps: seq<Step>, j: nat): (t: nat)
    ensures t >= j * TypingDelay
  {
    if j == 0 then 0 else TotalWait(steps, j - 1) + Wait(steps, j - 1)
  }

  // ---------------------------------------------------------------------------
  // Render projection

  /** The bubble a single step adds: its message, or nothing for a typing step. */
  function Carried(st: Step): (r: seq<Msg>)
    ensures |r| == if st.Message? then 1 else 0
  {
    if st.Message? then [MsgOf(st)] else []
  }

  /** The messages carried by the message steps of `ss`, in order. */
  function MessagesIn(ss: seq<Step>): seq<Msg>
  {
    if ss == [] then [] else MessagesIn(ss[..|ss| - 1]) + Carried(ss[|ss| - 1])
  }

  /** The bubbles shown at `stepIndex`: every message step at or before it.
      From the last step on, that is the whole transcript. */
  function Revealed(steps: seq<Step>, stepIndex: nat): (r: seq<Msg>)
    ensures stepIndex + 1 >= |steps| ==> r == MessagesIn(steps)
  {
    var n := Min(stepIndex + 1, |steps|);
    assert n == |steps| ==> steps[..n] == steps;
    MessagesIn(steps[..n])
  }

  /** The side whose typing indicator is shown at `stepIndex`, if any: it is
      shown exactly when the current step is a typing step, for that side. */
  function ShowTyping(steps: seq<Step>, stepIndex: nat): (r: Option<Side>)
    ensures r.Some? <==> stepIndex < |steps| && steps[stepIndex].Typing?
    ensures r.Some? ==> steps[stepIndex] == Typing(r.value)
  {
    if stepIndex < |steps| && steps[stepIndex].Typing? then Some(steps[stepIndex].side) else None
  }

  /** The revealed list as the component builds it: a loop over the steps up
      to the current index, pushing each message step. */
  method CollectRevealed(steps: seq<Step>, stepIndex: nat) returns (revealed: seq<Msg>)
    ensures revealed == Revealed(steps, stepIndex)
  {
    revealed := [];
    var i := 0;
    while i <= stepIndex && i < |steps|
      invariant i <= Min(stepIndex + 1, |steps|)
      invariant revealed == MessagesIn(steps[..i])
    {
      var st := steps[i];
      if st.Message? {
        revealed := revealed + [MsgOf(st)];
      }
      MessagesInSnoc(steps, i);
      i := i + 1;
    }
  }

  // ---------------------------------------------------------------------------
  // The component's state

  /** One mounted chat preview: its steps, fixed at mount, and the current index. */
  class Player {
    const steps: seq<Step>
    var stepIndex: nat

    /** The index always names a step, or is 0 when there are none. */
    predicate Valid()
      reads this
    {
      stepIndex < Max(1, |steps|)
    }

    constructor (messages: seq<Msg>)
      ensures steps == Steps(messages) && stepIndex == 0
      ensures Valid()
    {
      var s := BuildSteps(messages);
      steps := s;
      stepIndex := 0;
    }

    /** What the timer does once it fires: wait the step's delay (and the loop
        pause at the end), then move the index. `waited` is the total time. */
    method Tick() returns (waited: nat)
      modifies this
      ensures Valid()
      ensures stepIndex == Next(old(stepIndex), |steps|)
      ensures waited == Wait(steps, old(stepIndex))
    {
      waited := Delay(steps, stepIndex);
      var next := stepIndex + 1;
      if next < |steps| {
        stepIndex := next;
      } else {
        waited := waited + LoopPause;
        stepIndex := 0;
      }
    }

    /** The two outputs drawn at the current index. */
    method Render() returns (revealed: seq<Msg>, typing: Option<Side>)
      ensures revealed == Revealed(steps, stepIndex)
      ensures typing == ShowTyping(steps, stepIndex)
    {
      revealed := CollectRevealed(steps, stepIndex);
      typing := ShowTyping(steps, stepIndex);
    }
  }

  // ---------------------------------------------------------------------------
  // Properties

  /** Taking one more step adds exactly the bubble that step carries. */
  lemma MessagesInSnoc(ss: seq<Step>, k: nat)
    requires k < |ss|
    ensures MessagesIn(ss[..k + 1]) == MessagesIn(ss[..k]) + Carried(ss[k])
  {
    assert ss[..k + 1][..k] == ss[..k];
  }

  /** Inside the steps, advancing the index by one appends what the new step
      carries to the revealed bubbles, and nothing else. */
  lemma RevealedAdvance(steps: seq<Step>, i: nat)
    requires i + 1 < |steps|
    ensures Revealed(steps, i + 1) == Revealed(steps, i) + Carried(steps[i + 1])
  {
    assert Min(i + 1, |steps|) == i + 1 && Min(i + 2, |steps|) == i + 2;
    MessagesInSnoc(steps, i + 1);
  }

  /** The messages among the first `j` steps of a script are its first `j / 2` messages. */
  lemma {:induction false} MessagesInStepsPrefix(messages: seq<Msg>, j: nat)
    requires j <= 2 * |messages|
    ensures MessagesIn(Steps(messages)[..j]) == messages[..j / 2]
  {
    if j > 0 {
      var steps, k := Steps(messages), j - 1;
      var h := k / 2;
      MessagesInStepsPrefix(messages, k);
      MessagesInSnoc(steps, k);
      StepsAt(messages, k);
      if k % 2 == 1 {
        assert j / 2 == h + 1;
        calc {
          MessagesIn(steps[..j]);
          MessagesIn(steps[..k]) + Carried(steps[k]);
          messages[..h] + Carried(MessageStep(messages[h]));
          messages[..h] + [messages[h]];
          { PrefixSnoc(messages, h); }
          messages[..j / 2];
        }
      } else {
        assert j / 2 == h && k / 2 == h;
        assert Carried(steps[k]) == [];
      }
    }
  }

  /** At an index inside the script, the revealed bubbles are exactly the first
      `(i + 1) / 2` messages: none at the start, all of them at the last step. */
  lemma RevealedIsPrefix(messages: seq<Msg>, i: nat)
    requires i < 2 * |messages|
    ensures Revealed(Steps(messages), i) == messages[..(i + 1) / 2]
    ensures |Revealed(Steps(messages), i)| == i / 2 + i % 2
    ensures i == 0 ==> Revealed(Steps(messages), i) == []
    ensures i == 2 * |messages| - 1 ==> Revealed(Steps(messages), i) == messages
  {
    assert Min(i + 1, |Steps(messages)|) == i + 1;
    MessagesInStepsPrefix(messages, i + 1);
  }

  /** Extending a list of steps only appends to the messages it carries. */
  lemma {:induction false} MessagesInMonotone(xs: seq<Step>, ys: seq<Step>)
    requires xs <= ys
    ensures MessagesIn(xs) <= MessagesIn(ys)
    decreases |ys|
  {
    if |xs| < |ys| {
      var init := ys[..|ys| - 1];
      assert xs <= init;
      MessagesInMonotone(xs, init);
      PrefixOfAppend(MessagesIn(xs), MessagesIn(init), Carried(ys[|ys| - 1]));
    } else {
      assert xs == ys;
    }
  }

  /** Moving forward never hides a bubble: an earlier index reveals a prefix of
      what a later one reveals. */
  lemma RevealedMonotone(steps: seq<Step>, i: nat, j: nat)
    requires i <= j
    ensures Revealed(steps, i) <= Revealed(steps, j)
  {
    var a, b := Min(i + 1, |steps|), Min(j + 1, |steps|);
    assert steps[..a] <= steps[..b];
    MessagesInMonotone(steps[..a], steps[..b]);
  }

  /** At an even index of a script the typing indicator is shown, for the side
      of the message about to appear; at an odd index none is. */
  lemma TypingAtEvenSteps(messages: seq<Msg>, i: nat)
    requires i < 2 * |messages|
    ensures ShowTyping(Steps(messages), i) ==
      if i % 2 == 0 then Some(messages[i / 2].side) else None
  {
    StepsAt(messages, i);
  }

  /** Inside a script typing steps wait 900 ms and message steps 1400 ms, so
      the long delay is taken exactly when no indicator is shown. */
  lemma DelayOfScript(messages: seq<Msg>, i: nat)
    requires i < 2 * |messages|
    ensures Delay(Steps(messages), i) == if i % 2 == 0 then TypingDelay else MessageDelay
    ensures Delay(Steps(messages), i) == TypingDelay <==> ShowTyping(Steps(messages), i).Some?
  {
    StepsAt(messages, i);
  }

  /** Message `h` of a script is announced by its side's typing indicator at
      index `2 * h`, while it is not yet revealed (only the `h` before it are);
      index `2 * h + 1` shows no indicator and appends exactly that message. */
  lemma TypingAnnouncesNextMessage(messages: seq<Msg>, h: nat)
    requires h < |messages|
    ensures ShowTyping(Steps(messages), 2 * h) == Some(messages[h].side)
    ensures ShowTyping(Steps(messages), 2 * h + 1) == None
    ensures |Revealed(Steps(messages), 2 * h)| == h
    ensures Revealed(Steps(messages), 2 * h + 1) == Revealed(Steps(messages), 2 * h) + [messages[h]]
  {
    var steps := Steps(messages);
    StepsAt(messages, 2 * h);
    StepsAt(messages, 2 * h + 1);
    RevealedIsPrefix(messages, 2 * h);
    RevealedAdvance(steps, 2 * h);
    assert Carried(steps[2 * h + 1]) == [messages[h]];
  }

  /** Past the end of the steps nothing is typing and every message is shown. */
  lemma OutOfRangeShowsAll(messages: seq<Msg>, i: nat)
    requires i >= 2 * |messages|
    ensures ShowTyping(Steps(messages), i) == None
    ensures Revealed(Steps(messages), i) == messages
    ensures Delay(Steps(messages), i) == MessageDelay
  {
    var steps, n := Steps(messages), 2 * |messages|;
    assert Min(i + 1, |steps|) == n;
    MessagesInStepsPrefix(messages, n);
    assert Revealed(steps, i) == MessagesIn(steps[..n]);
    assert n / 2 == |messages| && messages[..n / 2] == messages;
  }

  /** From the initial index, the index after `k` firings is `k` modulo the
      number of steps; with no steps it stays at 0. So it always names a step. */
  lemma {:induction false} IndexAfterCycles(count: nat, k: nat)
    ensures IndexAfter(count, k) == if count == 0 then 0 else k % count
    ensures IndexAfter(count, k) < Max(1, count)
  {
    if k > 0 {
      IndexAfterCycles(count, k - 1);
      if count > 0 {
        ModSucc(k - 1, count);
      }
    }
  }

  /** One full pass over a script of `k` messages takes `k` times 900 + 1400 ms,
      and the last message step adds the 1600 ms pause before the restart. */
  lemma {:induction false} PassDuration(messages: seq<Msg>, k: nat)
    requires k <= |messages|
    ensures TotalWait(Steps(messages), 2 * k) ==
      k * (TypingDelay + MessageDelay) + if k == |messages| && k > 0 then LoopPause else 0
  {
    if k > 0 {
      PassDuration(messages, k - 1);
      StepsAt(messages, 2 * k - 2);
      StepsAt(messages, 2 * k - 1);
    }
  }

  /** At the last step every message is shown; the next firing, after the
      message delay and the loop pause, returns to index 0, where nothing is
      revealed and the first message's side is typing again. */
  lemma LoopRestarts(messages: seq<Msg>)
    requires |messages| > 0
    ensures Revealed(Steps(messages), 2 * |messages| - 1) == messages
    ensures Next(2 * |messages| - 1, |Steps(messages)|) == 0
    ensures Wait(Steps(messages), 2 * |messages| - 1) == MessageDelay + LoopPause
    ensures Revealed(Steps(messages), 0) == []
    ensures ShowTyping(Steps(messages), 0) == Some(messages[0].side)
  {
    RevealedIsPrefix(messages, 2 * |messages| - 1);
    RevealedIsPrefix(messages, 0);
  }

  /** With a non-empty script every firing changes the index, so the animation
      never settles; with an empty one the index stays at 0. */
  lemma IndexAlwaysMoves(messages: seq<Msg>, i: nat)
    requires i < Max(1, 2 * |messages|)
    ensures Next(i, |Steps(messages)|) == i <==> messages == []
  {
  }

  /** A two-message script, one bubble per side: the indicator and bubbles
      shown at each of its four indices, and the restart after the last. */
  lemma TwoMessageScript(hi: string, hello: string)
    ensures var script := [Msg(Left, hi, false), Msg(Right, hello, true)];
      var steps := Steps(script);
      && steps == [Typing(Left), Message(Left, hi, false), Typing(Right), Message(Right, hello, true)]
      && Revealed(steps, 0) == [] && ShowTyping(steps, 0) == Some(Left)
      && Revealed(steps, 1) == [script[0]] && ShowTyping(steps, 1) == None
      && Revealed(steps, 2) == [script[0]] && ShowTyping(steps, 2) == Some(Right)
      && Revealed(steps, 3) == script && ShowTyping(steps, 3) == None
      && Next(3, |steps|) == 0
  {
    var script := [Msg(Left, hi, false), Msg(Right, hello, true)];
    assert script[..1] == [script[0]];
    StepsAt(script, 0);
    StepsAt(script, 1);
    StepsAt(script, 2);
    StepsAt(script, 3);
    RevealedIsPrefix(script, 0);
    RevealedIsPrefix(script, 1);
    RevealedIsPrefix(script, 2);
    RevealedIsPrefix(script, 3);
  }

  // ---------------------------------------------------------------------------
  // Sequence and arithmetic helpers

  /** A prefix of `y` is a prefix of anything `y` is extended to. */
  lemma PrefixOfAppend<T>(x: seq<T>, y: seq<T>, c: seq<T>)
    requires x <= y
    ensures x <= y + c
  {
    assert (y + c)[..|x|] == y[..|x|];
  }

  /** Extending a prefix by one element appends that element. */
  lemma PrefixSnoc<T>(s: seq<T>, h: nat)
    requires h < |s|
    ensures s[..h + 1] == s[..h] + [s[h]]
  {
  }

  /** Counting one further modulo `n` wraps to 0 after `n - 1`. */
  lemma ModSucc(x: nat, n: nat)
    requires n > 0
    ensures (x + 1) % n == if x % n + 1 < n then x % n + 1 else 0
  {
    var q, r := x / n, x % n;
    assert x == q * n + r;
    if r + 1 < n {
      ModOfDecomposition(x + 1, n, q, r + 1);
    } else {
      assert (q + 1) * n == q * n + n;
      ModOfDecomposition(x + 1, n, q + 1, 0);
    }
  }

  /** The remainder of `q * n + r` by `n` is `r` when `r < n`. */
  lemma ModOfDecomposition(a: nat, n: nat, q: nat, r: nat)
    requires 0 < n && r < n && a == q * n + r
    ensures a % n == r
  {
    var q', r' := a / n, a % n;
    assert a == q' * n + r';
    if q' < q {
      MulAtLeast(q - q', n);
    } else if q' > q {
      MulAtLeast(q' - q, n);
    }
  }

  /** A positive multiple of `n` is at least `n`. */
  lemma {:induction false} MulAtLeast(d: nat, n: nat)
    requires d >= 1
    ensures d * n >= n
  {
    if d > 1 {
      MulAtLeast(d - 1, n);
      assert d * n == (d - 1) * n + n;
    }
  }
}
