// Chapter 15: a tracker that warns through a messenger when a value nears
// its quota, and the mock messenger that records what would have been sent.
module LimitTracker {
  import opened Wrappers

  /** The three messages, from the most to the least severe. */
  datatype Level = OverQuota | UrgentWarning | Warning

  function Text(level: Level): string {
    match level
    case OverQuota => "Error: You are over your quota!"
    case UrgentWarning => "Urgent Warning: You've used up over 90% of you quota!"
    case Warning => "Warning: You've used up over 75% of your quota!"
  }

  /** The message `set_value` sends for `value / max`, the first threshold
      that holds picking it: at least 1, at least 0.9, at least 0.75. The
      ratio is compared exactly. When `max` is 0 the floating-point division
      gives infinity for a positive value, which is over every threshold,
      and not-a-number for 0, which is under all of them. */
  function LevelOf(value: nat, max: nat): Option<Level> {
    if max == 0 then
      (if value > 0 then Some(OverQuota) else None)
    else if value >= max then Some(OverQuota)
    else if 10 * value >= 9 * max then Some(UrgentWarning)
    else if 4 * value >= 3 * max then Some(Warning)
    else None
  }

  /** With a positive `max`, each message is sent exactly on its band of the
      ratio `value / max`, and nothing is sent below three quarters. */
  lemma LevelBands(value: nat, max: nat)
    requires max > 0
    ensures var r := value as real / max as real;
      && (LevelOf(value, max) == Some(OverQuota) <==> r >= 1.0)
      && (LevelOf(value, max) == Some(UrgentWarning) <==> 0.9 <= r < 1.0)
      && (LevelOf(value, max) == Some(Warning) <==> 0.75 <= r < 0.9)
      && (LevelOf(value, max) == None <==> r < 0.75)
  {
    var v, m := value as real, max as real;
    RatioAtLeast(v, m, 1.0);
    RatioAtLeast(v, m, 0.9);
    RatioAtLeast(v, m, 0.75);
  }

  lemma RatioAtLeast(v: real, m: real, t: real)
    requires m > 0.0
    ensures v / m >= t <==> v >= t * m
  {
    var r := v / m;
    assert r * m == v;
    ScaleCompare(r, m, t);
  }

  lemma ScaleCompare(r: real, m: real, t: real)
    requires m > 0.0
    ensures r >= t <==> r * m >= t * m
  {
  }

  function Severity(l: Option<Level>): nat {
    match l
    case None => 0
    case Some(Warning) => 1
    case Some(UrgentWarning) => 2
    case Some(OverQuota) => 3
  }

  /** A larger value never gets a milder message. */
  lemma LevelMonotone(v1: nat, v2: nat, max: nat)
    requires v1 <= v2
    ensures Severity(LevelOf(v1, max)) <= Severity(LevelOf(v2, max))
  {
  }

  /** The messages after `set_value`: the earlier ones, then at most one. */
  function Sent(before: seq<string>, value: nat, max: nat): (r: seq<string>)
    ensures |before| <= |r| <= |before| + 1 && r[..|before|] == before
  {
    match LevelOf(value, max)
    case None => before
    case Some(l) => before + [Text(l)]
  }

  /** The mock messenger: `send` records the message instead of sending it. */
  class MockMessenger {
    var sentMessages: seq<string>

    constructor()
      ensures sentMessages == []
    {
      sentMessages := [];
    }

    method Send(message: string)
      modifies this
      ensures sentMessages == old(sentMessages) + [message]
    {
      sentMessages := sentMessages + [message];
    }
  }

  class Tracker {
    const messenger: MockMessenger
    var value: nat
    const max: nat

    /** `LimitTracker::new` starts at 0 with the given quota. */
    constructor(messenger: MockMessenger, max: nat)
      ensures this.messenger == messenger && value == 0 && this.max == max
    {
      this.messenger := messenger;
      value := 0;
      this.max := max;
    }

    /** `set_value` stores the value and sends the message its ratio calls
        for, if any. */
    method SetValue(value: nat)
      modifies this, messenger
      ensures this.value == value
      ensures messenger.sentMessages == Sent(old(messenger.sentMessages), value, max)
    {
      this.value := value;
      if max == 0 {
        if value > 0 {
          messenger.Send(Text(OverQuota));
        }
      } else if value >= max {
        messenger.Send(Text(OverQuota));
      } else if 10 * value >= 9 * max {
        messenger.Send(Text(UrgentWarning));
      } else if 4 * value >= 3 * max {
        messenger.Send(Text(Warning));
      }
    }
  }

  /** `it_sends_an_over_75_percent_warning_message`: a quota of 100 and a
      value of 80 send exactly one message, the plain warning. */
  method SendsOver75PercentWarning() returns (sent: seq<string>)
    ensures |sent| == 1 && sent[0] == Text(Warning)
  {
    var mock := new MockMessenger();
    var tracker := new Tracker(mock, 100);
    tracker.SetValue(80);
    sent := mock.sentMessages;
  }
}
