/**
 * The command mailbox: a command register with a start bit and an argument register, written by
 * the driver and taken by the controller (ll_set_cmd, ll_set_cmd_arg in src/sdmmc/ll.rs).
 */
module Mailbox {
  import opened Common
  import opened HwCmd
  import opened Cmd

  /**
   * The two registers, with the commands written and the commands taken so far, and how often a
   * register was written while a command was waiting.
   */
  datatype Box = Box(
    cmd: Word,
    arg: U32,
    written: seq<(Word, U32)>,
    taken: seq<(Word, U32)>,
    clobbered: nat)

  predicate Started(b: Box) { Get(b.cmd, StartCommand) }

  /** The command waiting to be taken, if any. */
  function Waiting(b: Box): seq<(Word, U32)> { if Started(b) then [(b.cmd, b.arg)] else [] }

  function Clobber(b: Box): nat { if Started(b) then b.clobbered + 1 else b.clobbered }

  function SetArg(b: Box, arg: U32): Box { b.(arg := arg, clobbered := Clobber(b)) }

  function SetCmd(b: Box, word: Word): Box {
    b.(cmd := word, written := b.written + [(word, b.arg)], clobbered := Clobber(b))
  }

  /** The controller takes a started command and clears the start bit. */
  function Take(b: Box): Box {
    if Started(b) then b.(cmd := With(b.cmd, StartCommand, false), taken := b.taken + [(b.cmd, b.arg)]) else b
  }

  datatype Access = WriteArg(arg: U32) | WriteCmd(word: Word) | TakeCmd

  function Apply(b: Box, a: Access): Box {
    match a
    case WriteArg(arg) => SetArg(b, arg)
    case WriteCmd(word) => SetCmd(b, word)
    case TakeCmd => Take(b)
  }

  function Exec(b: Box, accesses: seq<Access>): Box {
    if accesses == [] then b
    else Apply(Exec(b, accesses[..|accesses| - 1]), accesses[|accesses| - 1])
  }

  const RESET: Box := Box({}, 0, [], [], 0)

  /** Taken are exactly the written commands, in order, each with its own argument; at most the last waits. */
  predicate Orderly(b: Box) { b.written == b.taken + Waiting(b) }

  /** Every access is one of a driver that always starts what it writes. */
  predicate Starting(accesses: seq<Access>) {
    forall i :: 0 <= i < |accesses| && accesses[i].WriteCmd? ==> Get(accesses[i].word, StartCommand)
  }

  /** The last command written, while it waits. */
  function Due(b: Box): seq<(Word, U32)> {
    if Started(b) && b.written != [] then [b.written[|b.written| - 1]] else []
  }

  /** No command is lost: those taken and the one waiting are those written, each as it was written. */
  predicate Intact(b: Box) { b.written == b.taken + Due(b) }

  /** An access that loses nothing by itself, by the registers it finds. */
  predicate Harmless(b: Box, a: Access) {
    match a
    case WriteArg(_) => true
    case WriteCmd(_) => !Started(b)
    case TakeCmd => Started(b) && b.written != [] ==> b.arg == b.written[|b.written| - 1].1
  }

  /** Holds of the mailbox however it is used: a lost command is never made good. */
  predicate Accounted(b: Box) {
    && |b.taken| + (if Started(b) then 1 else 0) <= |b.written|
    && (Started(b) ==> b.cmd == b.written[|b.written| - 1].0)
  }

  lemma ApplyIntact(b: Box, a: Access)
    requires Accounted(b) && (a.WriteCmd? ==> Get(a.word, StartCommand))
    ensures Accounted(Apply(b, a))
    ensures Intact(Apply(b, a)) <==> Intact(b) && Harmless(b, a)
  {
    TakeClears(b);
    var b' := Apply(b, a);
    match a {
      case WriteArg(_) =>
      case WriteCmd(word) =>
        var pair := (word, b.arg);
        assert Due(b') == [pair];
        assert b.written + [pair] == b.taken + [pair] <==> b.written == b.taken by {
          if b.written + [pair] == b.taken + [pair] {
            assert b.written == (b.written + [pair])[..|b.written|] == (b.taken + [pair])[..|b.taken|] == b.taken;
          }
        }
      case TakeCmd =>
        if Started(b) {
          var w := b.written;
          if w == b.taken + [(b.cmd, b.arg)] {
            assert w[|w| - 1] == (b.cmd, b.arg);
          }
        }
    }
  }

  /** Every access finds the registers so that it loses nothing. */
  predicate AllHarmless(accesses: seq<Access>) {
    forall i :: 0 <= i < |accesses| ==> Harmless(Exec(RESET, accesses[..i]), accesses[i])
  }

  lemma AllHarmlessSnoc(front: seq<Access>, a: Access)
    ensures AllHarmless(front + [a]) <==> AllHarmless(front) && Harmless(Exec(RESET, front), a)
  {
    var l := front + [a];
    assert l[..|front|] == front;
    assert forall i :: 0 <= i < |front| ==> l[..i] == front[..i] && l[i] == front[i];
    if AllHarmless(l) {
      assert Harmless(Exec(RESET, l[..|front|]), l[|front|]);
      forall i | 0 <= i < |front| ensures Harmless(Exec(RESET, front[..i]), front[i]) {
        assert Harmless(Exec(RESET, l[..i]), l[i]);
      }
    }
  }

  /**
   * Exactly when commands are lost, whatever the driver and the controller do: no command is lost
   * iff every command word was written to a free mailbox and every command was taken while the
   * argument register held the argument it was written with.
   */
  lemma {:induction false} IntactIff(accesses: seq<Access>)
    requires Starting(accesses)
    ensures Accounted(Exec(RESET, accesses))
    ensures Intact(Exec(RESET, accesses)) <==> AllHarmless(accesses)
  {
    if accesses != [] {
      var front, a := accesses[..|accesses| - 1], accesses[|accesses| - 1];
      IntactIff(front);
      ApplyIntact(Exec(RESET, front), a);
      AllHarmlessSnoc(front, a);
      assert accesses == front + [a];
    }
  }

  /** A take clears the start bit and nothing else. */
  lemma TakeClears(b: Box)
    ensures !Started(Take(b))
    ensures Take(b).cmd == b.cmd - {31} && Take(b).arg == b.arg && Take(b).written == b.written
  {}

  /** A write to a box that holds no waiting command keeps the order; so does a take. */
  lemma ApplyOrderly(b: Box, a: Access)
    requires Orderly(b) && (a.WriteCmd? ==> Get(a.word, StartCommand))
    requires Apply(b, a).clobbered == b.clobbered
    ensures Orderly(Apply(b, a))
  {
    TakeClears(b);
  }

  /** No register is written while a command waits. */
  predicate Patient(b: Box, accesses: seq<Access>) {
    forall i :: 0 <= i < |accesses| && !accesses[i].TakeCmd? ==> !Started(Exec(b, accesses[..i]))
  }

  /**
   * Under every interleaving of driver writes and controller takes in which no register is
   * written while a command waits, the controller takes exactly what was written.
   */
  lemma {:induction false} MailboxOrder(accesses: seq<Access>)
    requires Starting(accesses) && Patient(RESET, accesses)
    ensures Orderly(Exec(RESET, accesses)) && Exec(RESET, accesses).clobbered == 0
  {
    if accesses != [] {
      var n := |accesses| - 1;
      var front := accesses[..n];
      assert forall i :: 0 <= i < n ==> front[..i] == accesses[..i];
      assert Patient(RESET, front) by {
        forall i | 0 <= i < n && !front[i].TakeCmd? ensures !Started(Exec(RESET, front[..i])) {
          assert !Started(Exec(RESET, accesses[..i]));
        }
      }
      MailboxOrder(front);
      assert accesses[n].TakeCmd? || !Started(Exec(RESET, accesses[..n]));
      ApplyOrderly(Exec(RESET, front), accesses[n]);
    }
  }

  /**
   * The one call that does not wait loses commands: a clock update for a voltage switch, sent
   * while the command `w` waits, and `w` is never taken.
   */
  lemma ImpatientExample(w: Word, a: U32, slot: Slot)
    requires Get(w, StartCommand)
    ensures var update := StartWord(ClockUpdateWord(slot, true), slot);
      var b := Exec(RESET, [WriteArg(a), WriteCmd(w), WriteArg(0), WriteCmd(update), TakeCmd]);
      && b.written == [(w, a), (update, 0)] && b.taken == [(update, 0)] && !Started(b) && !Intact(b)
  {
    var update := StartWord(ClockUpdateWord(slot, true), slot);
    StartWordGets(ClockUpdateWord(slot, true), slot, StartCommand);
    var l := [WriteArg(a), WriteCmd(w), WriteArg(0), WriteCmd(update), TakeCmd];
    assert l[..4][..3] == l[..3] && l[..3][..2] == l[..2] && l[..2][..1] == l[..1] && l[..1][..0] == [];
    TwoWrites(w, a, update);
    assert Exec(RESET, l[..1]) == SetArg(RESET, a);
    assert Exec(RESET, l[..2]) == SetCmd(SetArg(RESET, a), w);
    assert Exec(RESET, l[..3]) == SetArg(SetCmd(SetArg(RESET, a), w), 0);
    assert Exec(RESET, l[..4]) == SetCmd(SetArg(SetCmd(SetArg(RESET, a), w), 0), update);
  }

  /** A second command written over the first, and taken. */
  lemma TwoWrites(w: Word, a: U32, update: Word)
    requires Get(update, StartCommand)
    ensures var b := Take(SetCmd(SetArg(SetCmd(SetArg(RESET, a), w), 0), update));
      && b.written == [(w, a), (update, 0)] && b.taken == [(update, 0)] && !Started(b) && !Intact(b)
  {
    var b := SetCmd(SetArg(SetCmd(SetArg(RESET, a), w), 0), update);
    TakeClears(b);
    assert |Take(b).written| == 2 && |Take(b).taken| == 1;
  }
}
