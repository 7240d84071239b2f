/** JSON documents on disk as the stores see them: read as a whole, replaced as a whole or not at all. */
module Files {
  import opened Wrappers

  datatype StoreError =
    | ReadOnly | Invalid | NotFound | Conflict | NoFreshValue | ChangedOnDisk | WriteFailed | BadFile

  /** What a path holds. Garbled stands for anything that does not parse. */
  datatype Content<+D> = Missing | Garbled | Holds(doc: D)

  /** A file that may have other writers. The stamp stands for size and modification time, and never repeats. */
  class DocFile<D> {
    var content: Content<D>
    var stamp: nat

    constructor ()
      ensures content == Missing && stamp == 0
    {
      content, stamp := Missing, 0;
    }

    /** What stat reports: nothing for a missing file. */
    function Stat(): Option<nat>
      reads this
    {
      if content.Missing? then None else Some(stamp)
    }

    /** The rename of writeJSONAtomic. */
    method Replace(doc: D)
      modifies this
      ensures content == Holds(doc) && stamp == old(stamp) + 1
    {
      content, stamp := Holds(doc), stamp + 1;
    }
  }

  /** saveLocked goes ahead when the file is missing or has not moved since it was last read or written. */
  predicate MayWrite(stat: Option<nat>, loaded: Option<nat>) {
    stat.None? || stat == loaded
  }

  /** What a save is refused for, if anything. */
  function SaveError(mayWrite: bool, works: bool): Option<StoreError> {
    if !mayWrite then Some(ChangedOnDisk) else if !works then Some(WriteFailed) else None
  }

  // ---- minting ids ----

  /** One reading of the random source per try; None is a failure of the source. */
  type Draws = nat -> Option<string>

  /** The value minted by the retry loop, if some try finds one that is not taken. */
  function FirstFresh(draw: Draws, taken: set<string>, from: nat, tries: nat): (r: Option<string>)
    ensures r.Some? ==> r.value !in taken && exists i :: from <= i < tries && draw(i) == r
    decreases tries - from
  {
    if from >= tries || draw(from).None? then None
    else if draw(from).value !in taken then draw(from)
    else FirstFresh(draw, taken, from + 1, tries)
  }

  /** The first draw that is not taken is the one minted, if the source does not fail before it. */
  lemma {:induction false} FirstFreshIs(draw: Draws, taken: set<string>, from: nat, tries: nat, k: nat)
    requires from <= k < tries && forall i :: from <= i < k ==> draw(i).Some? && draw(i).value in taken
    requires draw(k).None? || draw(k).value !in taken
    ensures FirstFresh(draw, taken, from, tries) == draw(k)
    decreases k - from
  {
    if from < k {
      FirstFreshIs(draw, taken, from + 1, tries, k);
    }
  }

  /** When every draw is taken, nothing is minted. */
  lemma {:induction false} NothingFresh(draw: Draws, taken: set<string>, from: nat, tries: nat)
    requires forall i :: from <= i < tries ==> draw(i).Some? && draw(i).value in taken
    ensures FirstFresh(draw, taken, from, tries) == None
    decreases tries - from
  {
    if from < tries {
      NothingFresh(draw, taken, from + 1, tries);
    }
  }

  method Mint(draw: Draws, taken: set<string>, tries: nat) returns (r: Option<string>)
    ensures r == FirstFresh(draw, taken, 0, tries)
  {
    for i := 0 to tries
      invariant FirstFresh(draw, taken, 0, tries) == FirstFresh(draw, taken, i, tries)
    {
      var value := draw(i);
      if value.None? {
        return None;
      }
      if value.value !in taken {
        return value;
      }
    }
    return None;
  }

  /** Crockford's alphabet: the digits, and the capitals but for I, L, O and U. */
  predicate CrockfordChar(c: char) {
    '0' <= c <= '9' || 'A' <= c <= 'H' || c == 'J' || c == 'K' || c == 'M' || c == 'N' || 'P' <= c <= 'T'
    || 'V' <= c <= 'Z'
  }

  predicate IsCrockford(s: string) {
    forall c :: c in s ==> CrockfordChar(c)
  }

  /** The shape of a random id: eight lower-case letters or digits. */
  predicate IsRandomId(s: string) {
    |s| == 8 && forall c :: c in s ==> '0' <= c <= '9' || 'a' <= c <= 'z'
  }

  ghost predicate DrawsIds(draw: Draws) {
    forall i :: draw(i).Some? ==> IsRandomId(draw(i).value)
  }

  /** Timestamps are stored in whole seconds. */
  const SECOND := 1_000_000_000

  function WholeSeconds(now: int): int {
    now / SECOND * SECOND
  }

  /** An instant in whole seconds. */
  predicate InSeconds(at: int, now: int) {
    at % 1_000_000_000 == 0 && at <= now < at + 1_000_000_000
  }

  lemma SecondsAreWhole(now: int)
    ensures InSeconds(WholeSeconds(now), now)
  {
    var q := now / 1_000_000_000;
    assert (q * 1_000_000_000) % 1_000_000_000 == 0;
  }

  /** Nothing below a space and no delete character. */
  predicate NoControl(s: string) {
    forall c :: c in s ==> c >= ' ' && c != '\U{7f}'
  }

  /** No control character of ASCII. */
  predicate Printable(s: string) {
    forall i :: 0 <= i < |s| ==> ' ' <= s[i] && s[i] != '\U{7f}'
  }

  lemma PrintableMeans(s: string)
    ensures NoControl(s) <==> Printable(s)
  {
    if NoControl(s) {
      assert forall i :: 0 <= i < |s| ==> s[i] in s;
    }
  }
}
