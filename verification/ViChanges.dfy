/** Whole changes, and as many u: exactly when they bring text, cursor and stack back. */
module ViChanges {
  import Text
  import opened ViBuffer
  import opened ViKeys
  import opened ViUndo

  // ----- changes

  predicate AllDigits(digits: seq<Byte>) {
    digits == [] || (Text.IsDigit(digits[0]) && AllDigits(digits[1..]))
  }

  predicate IsCount(digits: seq<Byte>) {
    AllDigits(digits) && (digits != [] ==> digits[0] != '0')
  }

  /** The number a count prefix spells, behind the digits typed before. */
  function CountValue(count: nat, digits: seq<Byte>): nat
    requires AllDigits(digits)
    decreases |digits|
  {
    if digits == [] then count else CountValue(count * 10 + (digits[0] as int - '0' as int), digits[1..])
  }

  lemma DigitTyped(s: State, d: Byte)
    requires Ready(s) && Text.IsDigit(d) && (d == '0' ==> s.keys.count > 0)
    ensures var r := s.Counted(s.keys.count * 10 + (d as int - '0' as int)); Feed(s, d) == r && Ready(r) && r.keys.count > 0
  {
  }

  lemma RunDigit(s: State, digits: seq<Byte>, t: State)
    requires Ready(s) && digits != [] && Text.IsDigit(digits[0]) && (digits[0] == '0' ==> s.keys.count > 0)
    requires t == s.Counted(s.keys.count * 10 + (digits[0] as int - '0' as int))
    ensures Ready(t) && t.keys.count > 0 && Run(s, digits) == Run(t, digits[1..])
  {
    DigitTyped(s, digits[0]);
    RunFirst(s, digits);
  }

  lemma CountStep(s: State, digits: seq<Byte>, t: State)
    requires AllDigits(digits) && digits != []
    requires t == s.Counted(s.keys.count * 10 + (digits[0] as int - '0' as int))
    ensures AllDigits(digits[1..])
    ensures t.Counted(CountValue(t.keys.count, digits[1..])) == s.Counted(CountValue(s.keys.count, digits))
  {
  }

  lemma {:induction false} DigitsTyped(s: State, digits: seq<Byte>)
    requires Ready(s) && AllDigits(digits)
    requires digits != [] && digits[0] == '0' ==> s.keys.count > 0
    ensures Run(s, digits) == s.Counted(CountValue(s.keys.count, digits))
    decreases |digits|
  {
    if digits != [] {
      var t := s.Counted(s.keys.count * 10 + (digits[0] as int - '0' as int));
      CountStep(s, digits, t);
      RunDigit(s, digits, t);
      DigitsTyped(t, digits[1..]);
    }
  }

  datatype Change = Counted(digits: seq<Byte>, key: Byte) | Insertion(digits: seq<Byte>, key: Byte, typed: seq<Byte>)

  /** A counted x, p, P or dd, or an insertion with any bytes but Escape in it. */
  predicate IsChange(c: Change) {
    && IsCount(c.digits)
    && match c
       case Counted(_, key) => key == 'x' || key == 'p' || key == 'P' || key == 'd'
       case Insertion(_, key, typed) => IsInsertKey(key) && ESC !in typed
  }

  function Bytes(c: Change): seq<Byte> {
    match c
    case Counted(digits, key) => digits + if key == 'd' then ['d', 'd'] else [key]
    case Insertion(digits, key, typed) => digits + ([key] + typed + [ESC])
  }

  lemma {:induction false} TypingInserts(s: State, typed: seq<Byte>)
    requires Safe(s) && s.mode == Insert && s.keys.esc == NoEsc && !s.quit && ESC !in typed
    ensures var r := Run(s, typed); r == s.(at := r.at, dirty := r.dirty)
    decreases |typed|
  {
    if typed != [] {
      var t := FeedInsert(s, typed[0]);
      assert Feed(s, typed[0]) == t;
      TypingInserts(t, typed[1..]);
    }
  }

  lemma KeyTyped(s: State, key: Byte)
    requires Ready(s) && IsChangeKey(key)
    ensures Feed(s, key) == Key(s.Counted(0), key, s.keys.count > 0, CountOf(s))
    ensures Feed(s, key).undo == s.undo + [s.at]
  {
  }

  lemma InsertKeyTyped(s: State, key: Byte)
    requires Ready(s) && IsInsertKey(key)
    ensures var t := Feed(s, key);
      Safe(t) && t.mode == Insert && t.keys == Keys(NONE, 0, NoEsc) && !t.quit && t.undo == s.undo + [s.at]
  {
    KeyTyped(s, key);
  }

  /** Where a change leaves the editor: at rest, with an Escape that may still become an
      escape sequence, or still inserting. */
  datatype Phase = Rest | Undecided | Inserting

  predicate At(s: State, p: Phase) {
    && Safe(s) && !s.quit && s.keys.pending == NONE && s.keys.count == 0
    && match p
       case Rest => s.mode == Normal && s.keys.esc == NoEsc
       case Undecided => s.mode == Insert && s.keys.esc == GotEsc
       case Inserting => s.mode == Insert && s.keys.esc == NoEsc
  }

  lemma EscTyped(s: State)
    requires At(s, Inserting)
    ensures var r := Feed(s, ESC); At(r, Undecided) && r.undo == s.undo
  {
  }

  lemma InsertionStacks(s: State, key: Byte, typed: seq<Byte>)
    requires Ready(s) && IsInsertKey(key) && ESC !in typed
    ensures var r := Run(s, [key] + typed + [ESC]);
      At(r, Undecided) && r.undo == s.undo + [s.at]
  {
    var t := Feed(s, key);
    InsertKeyTyped(s, key);
    RunSplit(s, [key] + typed, [ESC]);
    RunSplit(s, [key], typed);
    RunOne(s, key);
    TypingInserts(t, typed);
    RunOne(Run(t, typed), ESC);
    EscTyped(Run(t, typed));
  }

  lemma CountedStacks(s: State, key: Byte)
    requires Ready(s) && (key == 'x' || key == 'p' || key == 'P')
    ensures var r := Feed(s, key); At(r, Rest) && r.undo == s.undo + [s.at]
  {
    KeyTyped(s, key);
  }

  lemma DTyped(s: State)
    requires Ready(s)
    ensures Feed(s, 'd') == s.Awaiting('d')
  {
  }

  lemma DDTyped(s: State)
    requires Ready(s)
    ensures Feed(s.Awaiting('d'), 'd') == CutLines(s.Counted(0), CountOf(s))
  {
    assert s.Awaiting('d').Awaiting(NONE).Counted(0) == s.Counted(0);
  }

  lemma CutStacks(s: State)
    requires Ready(s)
    ensures var r := CutLines(s.Counted(0), CountOf(s));
      At(r, Rest) && r.undo == s.undo + [s.at]
  {
  }

  lemma CutRuns(s: State)
    requires Ready(s)
    ensures Run(s, ['d', 'd']) == CutLines(s.Counted(0), CountOf(s))
  {
    RunSplit(s, ['d'], ['d']);
    RunOne(s, 'd');
    RunOne(s.Awaiting('d'), 'd');
    DTyped(s);
    DDTyped(s);
    assert ['d'] + ['d'] == ['d', 'd'];
  }

  /** A change made at rest puts exactly one entry on the undo stack: buffer and cursor
      before it. */
  lemma ChangeStacks(s: State, c: Change)
    requires At(s, Rest) && IsChange(c)
    ensures var r := Run(s, Bytes(c));
      At(r, if c.Counted? then Rest else Undecided) && r.undo == s.undo + [s.at]
  {
    var t := s.Counted(CountValue(0, c.digits));
    DigitsTyped(s, c.digits);
    match c
    case Counted(digits, key) =>
      RunSplit(s, digits, if key == 'd' then ['d', 'd'] else [key]);
      if key == 'd' {
        CutRuns(t);
        CutStacks(t);
      } else {
        CountedStacks(t, key);
        RunOne(t, key);
      }
    case Insertion(digits, key, typed) =>
      RunSplit(s, digits, [key] + typed + [ESC]);
      InsertionStacks(t, key, typed);
  }

  // ----- a capital O behind an Escape

  /** An O without a count: behind an Escape that is still undecided, it and the byte after
      it are taken for an escape sequence. */
  predicate StartsWithO(c: Change) {
    c.Insertion? && c.digits == [] && c.key == 'O'
  }

  /** The change is not taken as one: its bytes are text, or part of an escape sequence. */
  predicate Lost(p: Phase, c: Change) {
    p == Inserting || (p == Undecided && StartsWithO(c))
  }

  function Next(p: Phase, c: Change): Phase {
    if !Lost(p, c) then (if c.Counted? then Rest else Undecided)
    else if p == Inserting then (if c.Counted? then Inserting else Undecided)
    else if c.typed == [] then Inserting
    else Undecided
  }

  lemma {:induction false} DigitsAreText(digits: seq<Byte>)
    requires AllDigits(digits)
    ensures ESC !in digits
  {
    if digits != [] {
      DigitsAreText(digits[1..]);
    }
  }

  lemma {:induction false} FirstByte(c: Change)
    requires IsChange(c)
    ensures Bytes(c) != [] && Bytes(c)[0] != ESC && Bytes(c)[0] != '[' && (Bytes(c)[0] == 'O' <==> StartsWithO(c))
  {
    if c.digits != [] {
      assert Bytes(c)[0] == c.digits[0];
      assert Text.IsDigit(c.digits[0]);
    }
  }

  lemma SettledFeeds(s: State, b: Byte)
    requires At(s, Undecided) && b != ESC && b != '[' && b != 'O'
    ensures Feed(s, b) == Feed(Settled(s), b)
  {
  }

  lemma SettledRuns(s: State, bs: seq<Byte>)
    requires At(s, Undecided) && bs != [] && bs[0] != ESC && bs[0] != '[' && bs[0] != 'O'
    ensures At(Settled(s), Rest) && Run(s, bs) == Run(Settled(s), bs)
  {
    SettledFeeds(s, bs[0]);
  }

  /** Text and an Escape, while inserting. */
  lemma TypedOn(s: State, typed: seq<Byte>)
    requires At(s, Inserting) && ESC !in typed
    ensures var r := Run(s, typed + [ESC]); At(r, Undecided) && r.undo == s.undo
  {
    TypingInserts(s, typed);
    RunSplit(s, typed, [ESC]);
    RunOne(Run(s, typed), ESC);
    EscTyped(Run(s, typed));
  }

  lemma TypedChange(s: State, c: Change)
    requires At(s, Inserting) && IsChange(c)
    ensures var r := Run(s, Bytes(c)); At(r, Next(Inserting, c)) && r.undo == s.undo
  {
    DigitsAreText(c.digits);
    match c
    case Counted(digits, key) =>
      TypingInserts(s, Bytes(c));
    case Insertion(digits, key, typed) =>
      assert digits + ([key] + typed + [ESC]) == digits + [key] + typed + [ESC];
      TypedOn(s, digits + [key] + typed);
  }

  /** O and the byte behind it. */
  lemma SequenceTyped(s: State, b: Byte)
    requires At(s, Undecided)
    ensures var r := Feed(Feed(s, 'O'), b); At(r, Inserting) && r.undo == s.undo
    ensures Safe(Feed(s, 'O')) && !Feed(s, 'O').quit
  {
  }

  lemma LostO(s: State, c: Change)
    requires At(s, Undecided) && IsChange(c) && StartsWithO(c)
    ensures var r := Run(s, Bytes(c)); At(r, Next(Undecided, c)) && r.undo == s.undo
  {
    var typed := c.typed;
    var b := if typed == [] then ESC else typed[0];
    var more := if typed == [] then [] else typed[1..] + [ESC];
    var t := Feed(s, 'O');
    SequenceTyped(s, b);
    assert Bytes(c) == ['O'] + ([b] + more);
    RunSplit(s, ['O'], [b] + more);
    RunOne(s, 'O');
    RunSplit(t, [b], more);
    RunOne(t, b);
    if typed != [] {
      TypedOn(Feed(t, b), typed[1..]);
    }
  }

  /** One change, from any of the three phases. */
  lemma OneChange(s: State, p: Phase, c: Change)
    requires At(s, p) && IsChange(c)
    ensures var r := Run(s, Bytes(c));
      At(r, Next(p, c)) && r.undo == if Lost(p, c) then s.undo else s.undo + [Settled(s).at]
  {
    FirstByte(c);
    if p == Inserting {
      TypedChange(s, c);
    } else if p == Undecided && StartsWithO(c) {
      LostO(s, c);
    } else if p == Undecided {
      SettledRuns(s, Bytes(c));
      ChangeStacks(Settled(s), c);
    } else {
      ChangeStacks(s, c);
    }
  }

  // ----- any number of changes

  predicate AreChanges(cs: seq<Change>) {
    cs == [] || (IsChange(cs[0]) && AreChanges(cs[1..]))
  }

  function AllBytes(cs: seq<Change>): seq<Byte> {
    if cs == [] then [] else Bytes(cs[0]) + AllBytes(cs[1..])
  }

  function Last(p: Phase, cs: seq<Change>): Phase
    decreases cs
  {
    if cs == [] then p else Last(Next(p, cs[0]), cs[1..])
  }

  /** How many of the changes are taken as such. */
  function Taken(p: Phase, cs: seq<Change>): (n: nat)
    ensures n <= |cs|
    decreases cs
  {
    if cs == [] then 0 else (if Lost(p, cs[0]) then 0 else 1) + Taken(Next(p, cs[0]), cs[1..])
  }

  /** The stack u with n more entries on it. */
  predicate On(u: seq<Saved>, n: nat, v: seq<Saved>) {
    |v| == |u| + n && v[..|u|] == u
  }

  lemma FirstChange(s: State, p: Phase, cs: seq<Change>) returns (t: State, at: Saved)
    requires At(s, p) && AreChanges(cs) && cs != []
    ensures At(t, Next(p, cs[0])) && (p == Rest ==> at == s.at)
    ensures t.undo == if Lost(p, cs[0]) then s.undo else s.undo + [at]
    ensures Run(s, AllBytes(cs)) == Run(t, AllBytes(cs[1..]))
  {
    t := Run(s, Bytes(cs[0]));
    at := if p == Inserting then Snapshot([""], 0, 0) else Settled(s).at;
    OneChange(s, p, cs[0]);
    RunSplit(s, Bytes(cs[0]), AllBytes(cs[1..]));
  }

  lemma {:induction false} ChangesStack(s: State, p: Phase, cs: seq<Change>) returns (r: State)
    requires At(s, p) && AreChanges(cs)
    ensures r == Run(s, AllBytes(cs)) && At(r, Last(p, cs)) && On(s.undo, Taken(p, cs), r.undo)
    decreases |cs|
  {
    if cs == [] {
      r := s;
    } else {
      var t, at := FirstChange(s, p, cs);
      r := ChangesStack(t, Next(p, cs[0]), cs[1..]);
      OnOn(s.undo, at, t.undo, Taken(Next(p, cs[0]), cs[1..]), r.undo);
    }
  }

  lemma OnOn(u: seq<Saved>, at: Saved, v: seq<Saved>, n: nat, w: seq<Saved>)
    requires v == u || v == u + [at]
    requires On(v, n, w)
    ensures On(u, |v| - |u| + n, w)
    ensures v == u + [at] ==> w[|u|] == at
  {
    assert v[..|u|] == u && w[..|u|] == w[..|v|][..|u|];
    assert v == u + [at] ==> w[|u|] == w[..|v|][|u|];
  }

  /** The first of the changes is taken, so what was there before it is saved. */
  lemma ChangesFrom(s: State, cs: seq<Change>) returns (r: State)
    requires At(s, Rest) && AreChanges(cs) && cs != []
    ensures r == Run(s, AllBytes(cs)) && At(r, Last(Rest, cs)) && Taken(Rest, cs) > 0
    ensures On(s.undo, Taken(Rest, cs), r.undo) && r.undo[|s.undo|] == s.at
  {
    var t, at := FirstChange(s, Rest, cs);
    r := ChangesStack(t, Next(Rest, cs[0]), cs[1..]);
    OnOn(s.undo, at, t.undo, Taken(Next(Rest, cs[0]), cs[1..]), r.undo);
  }

  // ----- as many u

  lemma {:induction false} UsAreText(n: nat)
    ensures ESC !in Us(n)
  {
    if n > 0 {
      UsAreText(n - 1);
    }
  }

  /** n times u, when k changes were made. */
  lemma UndoneBack(s: State, e: State, k: nat, n: nat)
    requires Ready(s) && Calm(e) && 0 < k <= n && On(s.undo, k, e.undo) && e.undo[|s.undo|] == s.at
    requires Ready(Undone(e, n))
    ensures IsBack(Undone(e, n), s.at, s.undo) <==> k == n || s.undo == []
  {
    if k < n && s.undo != [] {
      assert |Undone(e, n).undo| < |s.undo|;
    }
  }

  /** Any number of changes, counted ones and insertions with whatever was typed in them,
      followed by as many u: text, cursor and undo stack are as before if and only if no
      change was lost to an escape sequence, or there was nothing saved before and the
      last Escape was typed. */
  lemma ChangesThenUndos(s: State, cs: seq<Change>)
    requires At(s, Rest) && AreChanges(cs) && cs != []
    ensures IsBack(Run(Run(s, AllBytes(cs)), Us(|cs|)), s.at, s.undo)
       <==> Last(Rest, cs) != Inserting && (Taken(Rest, cs) == |cs| || s.undo == [])
  {
    var e := ChangesFrom(s, cs);
    if Last(Rest, cs) == Inserting {
      StaysInserting(s, e, |cs|);
    } else {
      AtCalm(e, Last(Rest, cs));
      UndoMany(e, |cs|);
      UndoneBack(s, e, Taken(Rest, cs), |cs|);
    }
  }

  lemma AtCalm(s: State, p: Phase)
    requires At(s, p) && p != Inserting
    ensures Calm(s)
  {
  }

  lemma StaysInserting(s: State, e: State, n: nat)
    requires At(e, Inserting)
    ensures !IsBack(Run(e, Us(n)), s.at, s.undo) && Run(e, Us(n)).mode == Insert
  {
    UsAreText(n);
    TypingInserts(e, Us(n));
  }

  /** No change is lost if and only if none starts with O right behind an insertion. */
  predicate NoneStartsWithO(p: Phase, cs: seq<Change>)
    decreases cs
  {
    cs == [] || (!(p == Undecided && StartsWithO(cs[0])) && NoneStartsWithO(if cs[0].Counted? then Rest else Undecided, cs[1..]))
  }

  lemma {:induction false} AllTaken(p: Phase, cs: seq<Change>)
    requires p != Inserting
    ensures Taken(p, cs) == |cs| <==> NoneStartsWithO(p, cs)
    ensures Taken(p, cs) == |cs| ==> Last(p, cs) != Inserting
    decreases cs
  {
    if cs != [] && !Lost(p, cs[0]) {
      AllTaken(Next(p, cs[0]), cs[1..]);
    }
  }

  // ----- an input

  const A_THEN_O: seq<Change> := [Insertion([], 'i', ['a']), Insertion([], 'O', [])]

  lemma TwoInsertionsTyped()
    ensures AllBytes(A_THEN_O) == ['i', 'a', ESC, 'O', ESC] && AreChanges(A_THEN_O)
    ensures Last(Rest, A_THEN_O) == Inserting
  {
    var c, d := A_THEN_O[0], A_THEN_O[1];
    assert A_THEN_O[1..] == [d] && [d][1..] == [];
    assert Bytes(c) == ['i', 'a', ESC] && Bytes(d) == ['O', ESC];
    assert AllBytes([d]) == Bytes(d) + [] == Bytes(d);
    assert Last(Rest, A_THEN_O) == Last(Undecided, [d]);
  }

  /** i, a, Escape, O, Escape: the O and the second Escape are an escape sequence, and the
      two u are typed into the text. */
  lemma TwoInsertions(s: State)
    requires At(s, Rest)
    ensures AllBytes(A_THEN_O) == ['i', 'a', ESC, 'O', ESC] && AreChanges(A_THEN_O)
    ensures Run(Run(s, AllBytes(A_THEN_O)), Us(2)).mode == Insert
  {
    TwoInsertionsTyped();
    var e := ChangesFrom(s, A_THEN_O);
    StaysInserting(s, e, 2);
  }
}
