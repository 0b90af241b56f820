/** Counts and two-key commands: where the count may stand, and what drops the first key. */
module ViCounts {
  import Text
  import opened ViBuffer
  import opened ViKeys
  import opened ViUndo
  import opened ViChanges

  lemma PendingDigit(s: State, first: Byte, d: Byte)
    requires Ready(s) && Text.IsDigit(d) && (d == '0' ==> s.keys.count > 0)
    ensures var t := s.Counted(s.keys.count * 10 + (d as int - '0' as int));
      Feed(s.Awaiting(first), d) == t.Awaiting(first) && Ready(t) && t.keys.count > 0
  {
  }

  lemma RunStep(u: State, bs: seq<Byte>, v: State)
    requires Safe(u) && !u.quit && bs != [] && Feed(u, bs[0]) == v
    ensures Run(u, bs) == Run(v, bs[1..])
  {
  }

  lemma {:induction false} PendingDigits(s: State, first: Byte, digits: seq<Byte>)
    requires Ready(s) && AllDigits(digits) && (digits != [] && digits[0] == '0' ==> s.keys.count > 0)
    ensures Run(s.Awaiting(first), digits) == s.Counted(CountValue(s.keys.count, digits)).Awaiting(first)
    decreases |digits|
  {
    if digits != [] {
      var t := s.Counted(s.keys.count * 10 + (digits[0] as int - '0' as int));
      CountStep(s, digits, t);
      PendingDigit(s, first, digits[0]);
      RunStep(s.Awaiting(first), digits, t.Awaiting(first));
      PendingDigits(t, first, digits[1..]);
    }
  }

  lemma FirstKeyTyped(s: State, first: Byte)
    requires Ready(s) && TakesSecondKey(first)
    ensures Feed(s, first) == s.Awaiting(first)
  {
  }

  /** The count of a two-key command may as well stand between its keys. */
  lemma CountInside(s: State, first: Byte, digits: seq<Byte>, b: Byte)
    requires Ready(s) && s.keys.count == 0 && TakesSecondKey(first) && IsCount(digits)
    ensures Run(s, [first] + (digits + [b])) == Run(s, digits + ([first] + [b]))
  {
    var t := s.Counted(CountValue(0, digits));
    FirstKeyTyped(s, first);
    RunCons(s, first, digits + [b]);
    RunSplit(s.Awaiting(first), digits, [b]);
    PendingDigits(s, first, digits);
    DigitsTyped(s, digits);
    RunSplit(s, digits, [first] + [b]);
    FirstKeyTyped(t, first);
    RunCons(t, first, [b]);
  }

  lemma OtherKeyTyped(s: State, first: Byte, b: Byte)
    requires Ready(s) && TakesSecondKey(first) && b != first && b != ESC && !IsCountDigit(s, b)
    ensures Feed(s.Awaiting(first), b) == s.Counted(0)
  {
    assert s.Awaiting(first).Awaiting(NONE).Counted(0) == s.Counted(0);
  }

  /** Any other key behind the first is dropped with it. */
  lemma OtherKeyDrops(s: State, first: Byte, b: Byte)
    requires Ready(s) && TakesSecondKey(first) && b != first && b != ESC && !IsCountDigit(s, b)
    ensures Run(s, [first] + [b]) == s.Counted(0)
  {
    FirstKeyTyped(s, first);
    RunCons(s, first, [b]);
    RunOne(s.Awaiting(first), b);
    OtherKeyTyped(s, first, b);
  }

  lemma {:induction false} NothingPut(s: State, op: Op, n: nat)
    requires !HoldsLines(s.memory) && (op.PutBelow? || op.PutAbove?)
    ensures Times(s, op, n) == s
    decreases n
  {
    if n > 0 {
      NothingPut(s, op, n - 1);
    }
  }

  /** With nothing yanked, p and P change nothing. */
  lemma PutWithoutYank(s: State, b: Byte)
    requires Ready(s) && !HoldsLines(s.memory) && (b == 'p' || b == 'P')
    ensures Feed(s, b) == Save(s.Counted(0))
  {
    KeyTyped(s, b);
    NothingPut(Save(s.Counted(0)), if b == 'p' then PutBelow else PutAbove, CountOf(s));
  }
}
