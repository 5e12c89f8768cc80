/**
 * The tally light's view of the ATEM switcher: which input is on program and on
 * preview, the switcher's inputs keyed by input id (a `std::map`, so iterated in
 * ascending key order), and the input this light currently follows.
 * Input id 0 stands for "no input".
 */
module Tally {
  import opened CInts
  import opened Wrappers

  datatype AtemInputInfo = AtemInputInfo(id: Byte, shortName: string, longName: string, tallyEnabled: bool)

  datatype TallyState = TallyState(
    programInput: Byte,
    previewInput: Byte,
    inputs: map<Byte, AtemInputInfo>,
    selectedInput: Byte)

  /** The member initialisers: nothing on air, no inputs known, nothing selected. */
  function InitialTally(): (t: TallyState)
    ensures t.inputs == map[] && t.selectedInput == 0
    ensures t.programInput == 0 && t.previewInput == 0
  {
    TallyState(0, 0, map[], 0)
  }

  /** Input `k` is known and may be followed by a tally light. */
  predicate IsEnabled(inputs: map<Byte, AtemInputInfo>, k: Byte) {
    k in inputs && inputs[k].tallyEnabled
  }

  predicate HasEnabled(inputs: map<Byte, AtemInputInfo>) {
    exists k :: IsEnabled(inputs, k)
  }

  /** Every entry records its own key as its id, as the inputs loader builds them. */
  predicate WellKeyed(inputs: map<Byte, AtemInputInfo>) {
    forall k :: k in inputs ==> inputs[k].id == k
  }

  /** `TallyState::isProgram`. */
  function IsProgram(t: TallyState, input: Byte): (r: bool)
    ensures input == 0 ==> !r
    ensures r <==> input != 0 && input == t.programInput
  {
    input != 0 && input == t.programInput
  }

  /** `TallyState::isPreview`. */
  function IsPreview(t: TallyState, input: Byte): (r: bool)
    ensures input == 0 ==> !r
    ensures r <==> input != 0 && input == t.previewInput
  {
    input != 0 && input == t.previewInput
  }

  /** `TallyState::findInput`: the entry for `input`, or null. */
  function FindInput(t: TallyState, input: Byte): (r: Option<AtemInputInfo>)
    ensures r.Some? <==> input in t.inputs
    ensures r.Some? ==> r.value == t.inputs[input]
  {
    if input in t.inputs then Some(t.inputs[input]) else None
  }

  /** `TallyState::currentSelected`: null when nothing is selected or the selection is unknown. */
  function CurrentSelected(t: TallyState): (r: Option<AtemInputInfo>)
    ensures t.selectedInput == 0 ==> r.None?
    ensures r.Some? <==> t.selectedInput != 0 && t.selectedInput in t.inputs
    ensures r.Some? ==> r.value == t.inputs[t.selectedInput]
  {
    if t.selectedInput != 0 then FindInput(t, t.selectedInput) else None
  }

  /** The first enabled input met when iterating the map upwards from key `lo`. */
  function LeastEnabledFrom(inputs: map<Byte, AtemInputInfo>, lo: nat): (r: Option<Byte>)
    decreases 0x100 - lo
    ensures r.Some? ==> lo <= r.value && IsEnabled(inputs, r.value)
    ensures r.Some? ==> forall k: Byte :: lo <= k < r.value ==> !IsEnabled(inputs, k)
    ensures r.None? ==> forall k: Byte :: lo <= k ==> !IsEnabled(inputs, k)
  {
    if lo >= 0x100 then None
    else if IsEnabled(inputs, lo) then Some(lo)
    else LeastEnabledFrom(inputs, lo + 1)
  }

  /**
   * `TallyState::normalizeSelected`: keep a non-zero selection that is known and
   * enabled; otherwise select the first enabled input in key order, or 0 if none is.
   */
  function NormalizeSelected(t: TallyState): (r: TallyState)
    ensures r == t.(selectedInput := r.selectedInput)
    ensures r.selectedInput == 0 || IsEnabled(r.inputs, r.selectedInput)
    ensures t.selectedInput != 0 && IsEnabled(t.inputs, t.selectedInput) ==> r == t
    ensures !(t.selectedInput != 0 && IsEnabled(t.inputs, t.selectedInput)) ==>
              && (!HasEnabled(t.inputs) ==> r.selectedInput == 0)
              && (HasEnabled(t.inputs) ==> IsEnabled(t.inputs, r.selectedInput))
              && (forall k :: IsEnabled(t.inputs, k) ==> r.selectedInput <= k)
  {
    if t.selectedInput != 0 && IsEnabled(t.inputs, t.selectedInput) then t
    else
      match LeastEnabledFrom(t.inputs, 0)
      case Some(k) => t.(selectedInput := k)
      case None => t.(selectedInput := 0)
  }

  /** Normalising twice changes nothing more than normalising once. */
  lemma NormalizeIdempotent(t: TallyState)
    ensures NormalizeSelected(NormalizeSelected(t)) == NormalizeSelected(t)
  {
  }

  /** Where the search of `selectNextInput` starts: the beginning, or just after the selection. */
  function SearchStart(t: TallyState): nat {
    if t.selectedInput == 0 then 0 else t.selectedInput + 1
  }

  /**
   * The input `selectNextInput` moves to, defined by keys rather than by iterators:
   * the first enabled key at or after the search start, else (wrapping around) the
   * first enabled key, else 0.
   */
  function NextSelection(t: TallyState): (r: Byte)
    ensures |t.inputs| == 0 || !HasEnabled(t.inputs) ==> r == 0
    ensures r == 0 || IsEnabled(t.inputs, r)
    ensures |t.inputs| > 0 && LeastEnabledFrom(t.inputs, SearchStart(t)).Some? ==>
              && SearchStart(t) <= r && IsEnabled(t.inputs, r)
              && forall k: Byte :: SearchStart(t) <= k < r ==> !IsEnabled(t.inputs, k)
    ensures |t.inputs| > 0 && HasEnabled(t.inputs) && LeastEnabledFrom(t.inputs, SearchStart(t)).None? ==>
              && IsEnabled(t.inputs, r)
              && forall k :: IsEnabled(t.inputs, k) ==> r <= k
  {
    if |t.inputs| == 0 then 0
    else
      match LeastEnabledFrom(t.inputs, SearchStart(t))
      case Some(k) => k
      case None =>
        match LeastEnabledFrom(t.inputs, 0)
        case Some(k) => k
        case None => 0
  }

  /** Strictly increasing sequence of bytes. */
  predicate Increasing(ks: seq<Byte>) {
    forall i, j :: 0 <= i < j < |ks| ==> ks[i] < ks[j]
  }

  /** The keys of `m` from `lo` upwards, in the order a `std::map` iterator visits them. */
  function SortedKeys<V>(m: map<Byte, V>, lo: nat): (ks: seq<Byte>)
    decreases 0x100 - lo
    ensures Increasing(ks)
    ensures forall i :: 0 <= i < |ks| ==> ks[i] in m && lo <= ks[i]
    ensures forall k: Byte :: k in m && lo <= k ==> k in ks
  {
    if lo >= 0x100 then []
    else if lo in m then [lo as Byte] + SortedKeys(m, lo + 1)
    else SortedKeys(m, lo + 1)
  }

  /** `std::map::upper_bound`: the first position whose key exceeds `x`. */
  function UpperBound(ks: seq<Byte>, x: int): (j: nat)
    requires Increasing(ks)
    ensures j <= |ks|
    ensures forall i :: 0 <= i < j ==> ks[i] <= x
    ensures forall i :: j <= i < |ks| ==> x < ks[i]
  {
    if ks == [] || x < ks[0] then 0 else 1 + UpperBound(ks[1..], x)
  }

  /** The keys of `inputs`, in iteration order, as a sequence `ks` of positions. */
  predicate IteratesKeys(inputs: map<Byte, AtemInputInfo>, ks: seq<Byte>) {
    && Increasing(ks)
    && (forall i :: 0 <= i < |ks| ==> ks[i] in inputs)
    && (forall k :: k in inputs ==> k in ks)
  }

  /**
   * If no enabled key sits at positions a..b-1 of the key sequence, no enabled key lies in
   * the value range lo..hi-1 bracketed by those positions.
   */
  lemma NoEnabledBetween(inputs: map<Byte, AtemInputInfo>, ks: seq<Byte>, a: nat, b: nat, lo: int, hi: int)
    requires IteratesKeys(inputs, ks)
    requires a <= b <= |ks|
    requires forall j :: a <= j < b ==> !IsEnabled(inputs, ks[j])
    requires a == 0 || ks[a - 1] < lo
    requires b == |ks| || hi <= ks[b]
    ensures forall k: Byte :: lo <= k < hi ==> !IsEnabled(inputs, k)
  {
    forall k: Byte | lo <= k < hi && k in inputs
      ensures !inputs[k].tallyEnabled
    {
      assert k in ks;
      var j :| 0 <= j < |ks| && ks[j] == k;
      assert a <= j < b;
    }
  }

  /** The first enabled key at or after the search start is the next selection. */
  lemma NextSelectionFound(t: TallyState, v: Byte)
    requires |t.inputs| > 0 && SearchStart(t) <= v && IsEnabled(t.inputs, v)
    requires forall k: Byte :: SearchStart(t) <= k < v ==> !IsEnabled(t.inputs, k)
    ensures NextSelection(t) == v
  {
    var r := LeastEnabledFrom(t.inputs, SearchStart(t));
    assert r.Some? && r.value <= v;
  }

  /** With nothing enabled from the search start on, the search wraps to the first enabled key. */
  lemma NextSelectionWrapped(t: TallyState, v: Byte)
    requires |t.inputs| > 0 && IsEnabled(t.inputs, v)
    requires forall k: Byte :: SearchStart(t) <= k ==> !IsEnabled(t.inputs, k)
    requires forall k: Byte :: k < v ==> !IsEnabled(t.inputs, k)
    ensures NextSelection(t) == v
  {
    var r := LeastEnabledFrom(t.inputs, 0);
    assert r.Some? && r.value <= v;
  }

  /**
   * `TallyState::selectNextInput`, following the source's iterator loop: start just after
   * the selection (or at the beginning), wrap once at the end, and give up on returning
   * to the start position.
   */
  method SelectNextInput(t: TallyState) returns (r: TallyState)
    ensures r == t.(selectedInput := NextSelection(t))
  {
    if |t.inputs| == 0 {
      return t.(selectedInput := 0);
    }
    var ks: seq<Byte> := SortedKeys(t.inputs, 0);
    var someKey :| someKey in t.inputs;
    assert someKey in ks;
    var start: nat := if t.selectedInput == 0 then 0 else UpperBound(ks, t.selectedInput);
    var next := ScanFrom(t, ks, start);
    return t.(selectedInput := next);
  }

  /** The body of the `while (true)` loop of `selectNextInput`, from iterator position `start`. */
  method ScanFrom(t: TallyState, ks: seq<Byte>, start: nat) returns (next: Byte)
    requires |t.inputs| > 0 && |ks| > 0 && IteratesKeys(t.inputs, ks)
    requires start <= |ks|
    requires start == 0 || ks[start - 1] < SearchStart(t)
    requires start == |ks| || SearchStart(t) <= ks[start]
    ensures next == NextSelection(t)
  {
    var it := start;
    var wrapped := false;
    while true
      invariant 0 <= it <= |ks|
      invariant !wrapped ==> start <= it
      invariant wrapped ==> it <= start
      invariant !wrapped ==> forall j :: start <= j < it ==> !IsEnabled(t.inputs, ks[j])
      invariant wrapped ==> forall j :: start <= j < |ks| ==> !IsEnabled(t.inputs, ks[j])
      invariant wrapped ==> forall j :: 0 <= j < it ==> !IsEnabled(t.inputs, ks[j])
      decreases (if wrapped then 0 else |ks| + 1) + |ks| - it
    {
      if it == |ks| {
        if wrapped {
          NoEnabledBetween(t.inputs, ks, 0, |ks|, 0, 0x100);
          return 0;
        }
        it := 0;
        wrapped := true;
      }
      if wrapped && it == start {
        NoEnabledBetween(t.inputs, ks, 0, start, 0, if start == |ks| then 0x100 else ks[start]);
        NoEnabledBetween(t.inputs, ks, start, |ks|, SearchStart(t), 0x100);
        return 0;
      }
      if t.inputs[ks[it]].tallyEnabled {
        if wrapped {
          NoEnabledBetween(t.inputs, ks, start, |ks|, SearchStart(t), 0x100);
          NoEnabledBetween(t.inputs, ks, 0, it, 0, ks[it]);
          NextSelectionWrapped(t, ks[it]);
        } else {
          NoEnabledBetween(t.inputs, ks, start, it, SearchStart(t), ks[it]);
          NextSelectionFound(t, ks[it]);
        }
        return ks[it];
      }
      it := it + 1;
    }
  }

  /** A selection of 0 or of an enabled input stays that way after cycling. */
  lemma NextSelectionKeepsNormalized(t: TallyState)
    ensures NormalizeSelected(t.(selectedInput := NextSelection(t))) == t.(selectedInput := NextSelection(t))
  {
    var n := NextSelection(t);
    if n == 0 {
      assert !HasEnabled(t.inputs) || LeastEnabledFrom(t.inputs, 0) == Some(0);
    }
  }
}
