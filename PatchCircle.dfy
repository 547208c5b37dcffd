/** PatchCircle.java: the patches laid out around the board; index 0 is the
    patch right after the neutral token. */
module Circle {
  import opened Common
  import opened Patches

  /** The list after choosing index i: what followed the chosen patch comes
      first, the patches before it move to the back. */
  function AfterChoice(s: seq<Patch>, i: int): (t: seq<Patch>)
    requires 0 <= i < |s|
    ensures |t| == |s| - 1
    ensures forall k :: 0 <= k < |s| - 1 - i ==> t[k] == s[i + 1 + k]
    ensures forall k :: 0 <= k < i ==> t[|s| - 1 - i + k] == s[k]
  {
    s[i + 1..] + s[..i]
  }

  /** Choosing only removes the chosen patch: the others are all still there. */
  lemma AfterChoiceKeepsOthers(s: seq<Patch>, i: int)
    requires 0 <= i < |s|
    ensures multiset(AfterChoice(s, i)) + multiset{s[i]} == multiset(s)
    ensures i == 0 ==> AfterChoice(s, i) == s[1..]
  {
    assert s == s[..i] + [s[i]] + s[i + 1..];
  }

  /** List.remove(int): the list without its element at position k. */
  function RemoveAt(s: seq<Patch>, k: int): (t: seq<Patch>)
    requires 0 <= k < |s|
    ensures |t| == |s| - 1
    ensures forall m :: 0 <= m < k ==> t[m] == s[m]
    ensures forall m :: k <= m < |t| ==> t[m] == s[m + 1]
  {
    s[..k] + s[k + 1..]
  }

  /** Removing a position takes out exactly one patch, the one stored there. */
  lemma RemoveAtIsRemoval(s: seq<Patch>, k: int)
    requires 0 <= k < |s|
    ensures multiset(RemoveAt(s, k)) + multiset{s[k]} == multiset(s)
  {
    assert s == s[..k] + [s[k]] + s[k + 1..];
  }

  /** getTrio(n)'s result: the n-th group of three patches, possibly shorter
      at the end of the list, empty past it. */
  function Trio(s: seq<Patch>, n: int): (t: seq<Patch>)
    requires n > 0
    ensures |t| <= 3
    ensures |s| <= (n - 1) * 3 ==> t == []
    ensures forall k :: 0 <= k < |t| ==> (n - 1) * 3 + k < |s| && t[k] == s[(n - 1) * 3 + k]
    ensures |s| > (n - 1) * 3 ==> |t| == Min(3, |s| - (n - 1) * 3)
  {
    var start := (n - 1) * 3;
    if |s| <= start then [] else s[start..start + Min(3, |s| - start)]
  }

  class PatchCircle {
    var patches: seq<Patch>

    /** An empty circle. */
    constructor ()
      ensures patches == []
    {
      patches := [];
    }

    /** A circle holding the given deck, in its order. */
    constructor FromDeck(deck: seq<Patch>)
      ensures patches == deck
    {
      patches := deck;
    }

    /** Every patch of the circle passed the record's checks and has a mask of
        its declared size. */
    predicate AllValid()
      reads this
    {
      forall k :: 0 <= k < |patches| ==> ValidPatch(patches[k])
    }

    /** size() */
    function Count(): (n: nat)
      reads this
      ensures n == |patches|
    {
      |patches|
    }

    /** addPatch: appends one patch; used only while building a circle. */
    method AddPatch(p: Patch)
      modifies this
      ensures patches == old(patches) + [p]
    {
      patches := patches + [p];
    }

    /** choosePatch(int): takes the patch at patchIndex (0 to 2) and rotates
        the ones before it to the back. */
    method ChoosePatch(patchIndex: int) returns (r: Result<Patch>)
      modifies this
      ensures |old(patches)| == 0 ==> r == Err(IllegalState("PatchCircle is empty"))
      ensures |old(patches)| > 0 && patchIndex < 0 ==> r == Err(IllegalArgument("patchIndex negative"))
      ensures |old(patches)| > 0 && patchIndex > 2 ==>
                r == Err(IllegalArgument("patchIndex > 2, must be between 0 and 2"))
      ensures |old(patches)| > 0 && 0 <= patchIndex <= 2 && patchIndex >= |old(patches)| ==>
                r == Err(IllegalState("Trying to chose a non existant patch"))
      ensures r.Err? ==> patches == old(patches)
      ensures 0 <= patchIndex <= 2 && patchIndex < |old(patches)| ==>
                r == Ok(old(patches)[patchIndex]) && patches == AfterChoice(old(patches), patchIndex)
      ensures old(AllValid()) ==> AllValid() && (r.Ok? ==> ValidPatch(r.value))
    {
      if |patches| == 0 {
        return Err(IllegalState("PatchCircle is empty"));
      }
      if patchIndex < 0 {
        return Err(IllegalArgument("patchIndex negative"));
      }
      if patchIndex > 2 {
        return Err(IllegalArgument("patchIndex > 2, must be between 0 and 2"));
      }
      if patchIndex >= |patches| {
        return Err(IllegalState("Trying to chose a non existant patch"));
      }
      var selected := patches[patchIndex];
      patches := patches[..patchIndex] + patches[patchIndex + 1..];
      ghost var rest := patches;
      var i := 0;
      while i < patchIndex
        invariant 0 <= i <= patchIndex <= |rest|
        invariant patches == rest[i..] + rest[..i]
      {
        assert rest[..i + 1] == rest[..i] + [rest[i]];
        patches := patches[1..] + [patches[0]];
        i := i + 1;
      }
      assert rest[patchIndex..] == old(patches)[patchIndex + 1..];
      assert rest[..patchIndex] == old(patches)[..patchIndex];
      return Ok(selected);
    }

    /** choosePatch(Patch): the graphical variant. The record's equals compares
        its mask array by reference, so contains and remove match the chosen
        object itself, not a copy with the same cells. That object is named
        here by its position `at` in the circle (every element of the list is
        an object of its own); a position outside the list stands for an object
        that is not in the circle. It must be among the first three and is
        removed without rotation. */
    method ChoosePatchByReference(at: int) returns (r: Result<Patch>)
      modifies this
      ensures |old(patches)| == 0 ==> r == Err(IllegalState("Chose a patch from an empty patch circle"))
      ensures |old(patches)| > 0 && !(0 <= at < |Trio(old(patches), 1)|) ==>
                r == Err(IllegalState("Chosen patch does not belong to the available patches to choose"))
      ensures r.Err? ==> patches == old(patches)
      ensures 0 <= at < Min(3, |old(patches)|) ==>
                r == Ok(old(patches)[at]) && patches == RemoveAt(old(patches), at)
      ensures old(AllValid()) ==> AllValid() && (r.Ok? ==> ValidPatch(r.value))
    {
      if |patches| == 0 {
        return Err(IllegalState("Chose a patch from an empty patch circle"));
      }
      var trio := GetTrio(1);
      if !(0 <= at < |trio.value|) {
        return Err(IllegalState("Chosen patch does not belong to the available patches to choose"));
      }
      var chosen := patches[at];
      patches := RemoveAt(patches, at);
      return Ok(chosen);
    }

    /** choiceIsValid: index 3 (skip) is always acceptable on a non-empty
        circle; indices 0 to 2 need an existing patch the player can pay for. */
    function ChoiceIsValid(patchIndex: int, buttonCount: int): (r: Result<bool>)
      reads this
      ensures |patches| == 0 ==> r == Ok(false)
      ensures |patches| > 0 && buttonCount < 0 ==> r == Err(IllegalArgument("buttonCount cannot be negative"))
      ensures |patches| > 0 && buttonCount >= 0 ==> r.Ok?
      ensures |patches| > 0 && buttonCount >= 0 && patchIndex == 3 ==> r == Ok(true)
      ensures r == Ok(true) && patchIndex != 3 ==>
                0 <= patchIndex <= 2 && patchIndex < |patches| && buttonCount > 0 &&
                patches[patchIndex].price <= buttonCount
      ensures (0 <= patchIndex <= 2 && patchIndex < |patches| && buttonCount > 0 &&
               patches[patchIndex].price <= buttonCount) ==> r == Ok(true)
    {
      if |patches| == 0 then Ok(false)
      else if buttonCount < 0 then Err(IllegalArgument("buttonCount cannot be negative"))
      else if patchIndex == 3 then Ok(true)
      else if patchIndex < 0 || patchIndex > 3 || patchIndex >= |patches| || buttonCount == 0 then Ok(false)
      else if patches[patchIndex].price > buttonCount then Ok(false)
      else Ok(true)
    }

    /** getTrio(n): the n-th group of three patches; n must be positive. */
    method GetTrio(n: int) returns (r: Result<seq<Patch>>)
      ensures n <= 0 ==> r == Err(IllegalArgument("0th trio or negative-th trio is not possible"))
      ensures n > 0 ==> r == Ok(Trio(patches, n))
    {
      if n <= 0 {
        return Err(IllegalArgument("0th trio or negative-th trio is not possible"));
      }
      var trio: seq<Patch> := [];
      if |patches| <= (n - 1) * 3 {
        return Ok(trio);
      }
      var start := (n - 1) * 3;
      var i := 0;
      while i < 3 && start + i < |patches|
        invariant 0 <= i <= 3 && start + i <= |patches|
        invariant trio == patches[start..start + i]
      {
        trio := trio + [patches[start + i]];
        i := i + 1;
      }
      return Ok(trio);
    }

    /** newPatchCircleBasic before its shuffle: twenty of each basic cube,
        alternating. */
    static method NewPatchCircleBasic() returns (c: PatchCircle)
      ensures fresh(c)
      ensures |c.patches| == 40
      ensures multiset(c.patches)[CubeBasic1()] == 20 && multiset(c.patches)[CubeBasic2()] == 20
      ensures forall k :: 0 <= k < |c.patches| ==> c.patches[k] == CubeBasic1() || c.patches[k] == CubeBasic2()
    {
      c := new PatchCircle();
      StockPatches();
      var i := 0;
      while i < 20
        invariant 0 <= i <= 20
        invariant |c.patches| == 2 * i
        invariant multiset(c.patches)[CubeBasic1()] == i && multiset(c.patches)[CubeBasic2()] == i
        invariant forall k :: 0 <= k < |c.patches| ==> c.patches[k] == CubeBasic1() || c.patches[k] == CubeBasic2()
      {
        c.AddPatch(CubeBasic1());
        c.AddPatch(CubeBasic2());
        i := i + 1;
      }
    }
  }
}
