/** The access-point slot selector of the Wi-Fi connect menu: a cyclic cursor over the
    three slots, mirrored in the 12-character buffer the menu prints, where the selected
    slot's digit is framed as `>N<`. */
module Selector {

  /** One of the three preconfigured access-point slots. */
  type Slot = s: int | 0 <= s < 3

  /** The slot LEFT selects: the previous one, wrapping from the first to the last. */
  function Left(s: Slot): (r: Slot)
    ensures r == (s + 2) % 3
  {
    if s - 1 == -1 then 2 else s - 1
  }

  /** The slot RIGHT selects: the next one, wrapping from the last to the first. */
  function Right(s: Slot): (r: Slot)
    ensures r == (s + 1) % 3
  {
    if s + 1 == 3 then 0 else s + 1
  }

  lemma LeftRightInverse(s: Slot)
    ensures Left(Right(s)) == s && Right(Left(s)) == s
  {
  }

  /** `n` presses of RIGHT from `s`. */
  function RightTimes(s: Slot, n: nat): Slot
  {
    if n == 0 then s else Right(RightTimes(s, n - 1))
  }

  /** `n` presses of LEFT from `s`. */
  function LeftTimes(s: Slot, n: nat): Slot
  {
    if n == 0 then s else Left(LeftTimes(s, n - 1))
  }

  /** `n` presses of RIGHT advance the cursor by `n` modulo 3, so three of them return to
      the starting slot. */
  lemma {:induction false} RightTimesIsRotation(s: Slot, n: nat)
    ensures RightTimes(s, n) == (s + n) % 3
  {
    if n > 0 {
      RightTimesIsRotation(s, n - 1);
    }
  }

  /** `n` presses of LEFT move the cursor back by `n` modulo 3. */
  lemma {:induction false} LeftTimesIsRotation(s: Slot, n: nat)
    ensures LeftTimes(s, n) == (s - n) % 3
  {
    if n > 0 {
      LeftTimesIsRotation(s, n - 1);
    }
  }

  /** The initial text of the buffer (what `sprintf` writes), and the NUL after it. */
  const InitialText: string := ">1<  2   3 "

  /** The buffer the menu prints while `s` is selected, terminating NUL included. */
  function Render(s: Slot): (text: seq<char>)
    ensures |text| == 12 && text[11] == '\0'
    ensures text[s * 4] == '>' && text[s * 4 + 2] == '<'
    ensures forall k: Slot | k != s :: text[k * 4] == ' ' && text[k * 4 + 2] == ' '
    ensures text[1] == '1' && text[5] == '2' && text[9] == '3'
    ensures text[3] == ' ' && text[7] == ' '
  {
    match s
    case 0 => ">1<  2   3 \0"
    case 1 => " 1  >2<  3 \0"
    case 2 => " 1   2  >3<\0"
  }

  /** The initial buffer shows slot 0 selected. */
  lemma InitialTextRendersFirstSlot()
    ensures InitialText + "\0" == Render(0)
  {
  }

  /** The buffer determines the selected slot. */
  lemma RenderInjective(s: Slot, t: Slot)
    requires Render(s) == Render(t)
    ensures s == t
  {
  }

  /** The slot-selection buffer as a mutable character array, and the slot it marks. */
  class SlotSelector {
    var slot: int
    const text: array<char>

    ghost predicate Valid()
      reads this, text
    {
      text.Length == 12 && 0 <= slot < 3 && text[..] == Render(slot)
    }

    /** A zero-filled buffer into which the initial text is printed, slot 0 selected. */
    constructor ()
      ensures Valid() && slot == 0 && fresh(text)
    {
      slot := 0;
      text := new char[12](i => if 0 <= i < |InitialText| then InitialText[i] else '\0');
      new;
      assert text[..] == InitialText + "\0";
    }

    /** Erase the markers around the selected digit, step to the previous slot, and mark it. */
    method MoveLeft()
      requires Valid()
      modifies this, text
      ensures Valid() && slot == Left(old(slot))
    {
      text[slot * 4] := ' ';
      text[slot * 4 + 2] := ' ';
      slot := slot - 1;
      if slot == -1 {
        slot := 2;
      }
      text[slot * 4] := '>';
      text[slot * 4 + 2] := '<';
      assert text[..] == Render(slot);
    }

    /** Erase the markers around the selected digit, step to the next slot, and mark it. */
    method MoveRight()
      requires Valid()
      modifies this, text
      ensures Valid() && slot == Right(old(slot))
    {
      text[slot * 4] := ' ';
      text[slot * 4 + 2] := ' ';
      slot := slot + 1;
      if slot == 3 {
        slot := 0;
      }
      text[slot * 4] := '>';
      text[slot * 4 + 2] := '<';
      assert text[..] == Render(slot);
    }
  }
}
