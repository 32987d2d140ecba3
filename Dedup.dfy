/**
 * `uniqueArr` of the scanner: the folder list is de-duplicated by id before
 * the folders are processed in parallel. The inner loop advances `i` each time
 * `arr[i]` has a later twin, so a position is skipped exactly when it is
 * overtaken that way; what survives is not a set of distinct ids in general.
 */
module Dedup {

  /** An entry of `RJfolder`: the six-digit id text a folder name carries and the folder's path. */
  datatype FolderEntry = FolderEntry(id: string, folderDir: string)

  /** Some later position carries the same id. */
  predicate HasLaterTwin(arr: seq<FolderEntry>, k: int)
    requires 0 <= k < |arr|
  {
    exists q | k < q < |arr| :: arr[q].id == arr[k].id
  }

  /**
   * The inner loop started at (i, j): the value `i` has when `j` reaches the end.
   * Every position it steps over has a later twin.
   */
  function Inner(arr: seq<FolderEntry>, i: nat, j: nat): (r: nat)
    requires i < j <= |arr|
    ensures i <= r < |arr|
    decreases |arr| - j
  {
    if j == |arr| then i
    else if arr[i].id == arr[j].id then Inner(arr, i + 1, j + 1)
    else Inner(arr, i, j + 1)
  }

  /** The ids the inner loop started at (i, j) pushes onto `duplicateID`: `arr[i].id` before each `++i`. */
  function DupsInner(arr: seq<FolderEntry>, i: nat, j: nat): seq<string>
    requires i < j <= |arr|
    decreases |arr| - j
  {
    if j == |arr| then []
    else if arr[i].id == arr[j].id then [arr[i].id] + DupsInner(arr, i + 1, j + 1)
    else DupsInner(arr, i, j + 1)
  }

  /** The inner loop steps only over positions with a later twin, and pushes one id for each. */
  lemma {:induction false} InnerSkipsTwins(arr: seq<FolderEntry>, i: nat, j: nat)
    requires i < j <= |arr|
    ensures forall k | i <= k < Inner(arr, i, j) :: HasLaterTwin(arr, k)
    ensures |DupsInner(arr, i, j)| == Inner(arr, i, j) - i
    ensures forall x | x in DupsInner(arr, i, j) :: exists k | i <= k < Inner(arr, i, j) :: arr[k].id == x && HasLaterTwin(arr, k)
    decreases |arr| - j
  {
    if j < |arr| {
      if arr[i].id == arr[j].id {
        InnerSkipsTwins(arr, i + 1, j + 1);
        assert HasLaterTwin(arr, i);
      } else {
        InnerSkipsTwins(arr, i, j + 1);
      }
    }
  }

  /** The positions the outer loop pushes onto `hash`, starting from `i`. */
  function Kept(arr: seq<FolderEntry>, i: nat): (kept: seq<nat>)
    requires i <= |arr|
    ensures forall t | 0 <= t < |kept| :: i <= kept[t] < |arr|
    decreases |arr| - i
  {
    if i == |arr| then []
    else
      var last := Inner(arr, i, i + 1);
      [last] + Kept(arr, last + 1)
  }

  /**
   * The kept positions increase, the last position is always kept, and every
   * position the outer loop skips has a later twin.
   */
  lemma {:induction false} KeptShape(arr: seq<FolderEntry>, i: nat)
    requires i <= |arr|
    ensures var kept := Kept(arr, i);
            && (forall s, t | 0 <= s < t < |kept| :: kept[s] < kept[t])
            && (forall k | i <= k < |arr| && k !in kept :: HasLaterTwin(arr, k))
            && (i < |arr| ==> |kept| > 0 && kept[|kept| - 1] == |arr| - 1)
    decreases |arr| - i
  {
    if i < |arr| {
      var last := Inner(arr, i, i + 1);
      InnerSkipsTwins(arr, i, i + 1);
      KeptShape(arr, last + 1);
    }
  }

  /** The ids pushed onto `duplicateID`, from `i` on: one per skipped position, each with a later twin. */
  function Dups(arr: seq<FolderEntry>, i: nat): (d: seq<string>)
    requires i <= |arr|
    decreases |arr| - i
  {
    if i == |arr| then []
    else
      var last := Inner(arr, i, i + 1);
      DupsInner(arr, i, i + 1) + Dups(arr, last + 1)
  }

  /** One id is pushed per skipped position, and each pushed id belongs to a position with a later twin. */
  lemma {:induction false} DupsShape(arr: seq<FolderEntry>, i: nat)
    requires i <= |arr|
    ensures |Dups(arr, i)| + |Kept(arr, i)| == |arr| - i
    ensures forall x | x in Dups(arr, i) :: exists k | i <= k < |arr| :: arr[k].id == x && HasLaterTwin(arr, k)
    decreases |arr| - i
  {
    if i < |arr| {
      var last := Inner(arr, i, i + 1);
      InnerSkipsTwins(arr, i, i + 1);
      DupsShape(arr, last + 1);
    }
  }

  /** The entries the outer loop pushes onto `hash`, starting from `i`. */
  function UniquedFrom(arr: seq<FolderEntry>, i: nat): seq<FolderEntry>
    requires i <= |arr|
    decreases |arr| - i
  {
    if i == |arr| then []
    else
      var last := Inner(arr, i, i + 1);
      [arr[last]] + UniquedFrom(arr, last + 1)
  }

  /** `uniquedArr`. */
  function Uniqued(arr: seq<FolderEntry>): seq<FolderEntry>
  {
    UniquedFrom(arr, 0)
  }

  /** The pushed entries are those at the kept positions, in order. */
  lemma {:induction false} UniquedAtKept(arr: seq<FolderEntry>, i: nat)
    requires i <= |arr|
    ensures |UniquedFrom(arr, i)| == |Kept(arr, i)|
    ensures forall t | 0 <= t < |Kept(arr, i)| :: UniquedFrom(arr, i)[t] == arr[Kept(arr, i)[t]]
    decreases |arr| - i
  {
    if i < |arr| {
      UniquedAtKept(arr, Inner(arr, i, i + 1) + 1);
    }
  }

  /** A `Set` filled in order and read back with `Array.from`: first occurrences, in order. */
  function Distinct(xs: seq<string>): (d: seq<string>)
    ensures forall x :: x in d <==> x in xs
    ensures forall s, t | 0 <= s < t < |d| :: d[s] != d[t]
  {
    if xs == [] then []
    else
      var init := Distinct(xs[..|xs| - 1]);
      if xs[|xs| - 1] in init then init else init + [xs[|xs| - 1]]
  }

  /** `duplicateIDArr`. */
  function DuplicateIds(arr: seq<FolderEntry>): seq<string>
  {
    Distinct(Dups(arr, 0))
  }

  /** The source's nested loops and the Set round trip. */
  method UniqueArr(arr: seq<FolderEntry>) returns (uniquedArr: seq<FolderEntry>, duplicateIdArr: seq<string>)
    ensures uniquedArr == Uniqued(arr)
    ensures duplicateIdArr == DuplicateIds(arr)
  {
    var hash: seq<FolderEntry> := [];
    var duplicateId: seq<string> := [];
    var i := 0;
    while i < |arr|
      invariant 0 <= i <= |arr|
      invariant hash + UniquedFrom(arr, i) == Uniqued(arr)
      invariant duplicateId + Dups(arr, i) == Dups(arr, 0)
      decreases |arr| - i
    {
      ghost var start, pushed := i, duplicateId;
      var j := i + 1;
      while j < |arr|
        invariant start <= i < j <= |arr|
        invariant Inner(arr, i, j) == Inner(arr, start, start + 1)
        invariant duplicateId + DupsInner(arr, i, j) == pushed + DupsInner(arr, start, start + 1)
      {
        if arr[i].id == arr[j].id {
          assert DupsInner(arr, i, j) == [arr[i].id] + DupsInner(arr, i + 1, j + 1);
          duplicateId := duplicateId + [arr[i].id];
          i := i + 1;
        }
        j := j + 1;
      }
      assert duplicateId == pushed + DupsInner(arr, start, start + 1);
      OuterStep(arr, start);
      assert duplicateId + Dups(arr, i + 1) == Dups(arr, 0);
      hash := hash + [arr[i]];
      i := i + 1;
    }
    uniquedArr := hash;
    assert Dups(arr, i) == [];
    assert duplicateId + [] == duplicateId;
    assert duplicateId == Dups(arr, 0);

    duplicateIdArr := ArrayFromSet(duplicateId);
  }

  /** `Array.from(s)` of a `Set` `s` filled with `forEach(x => s.add(x))`. */
  method ArrayFromSet(xs: seq<string>) returns (arr: seq<string>)
    ensures arr == Distinct(xs)
  {
    arr := [];
    var k := 0;
    while k < |xs|
      invariant 0 <= k <= |xs|
      invariant arr == Distinct(xs[..k])
    {
      assert xs[..k + 1][..k] == xs[..k];
      if xs[k] !in arr {
        arr := arr + [xs[k]];
      }
      k := k + 1;
    }
    assert xs[..k] == xs;
  }

  /** One pass of the outer loop: the entry it keeps, the ids it skips. */
  lemma OuterStep(arr: seq<FolderEntry>, i: nat)
    requires i < |arr|
    ensures var last := Inner(arr, i, i + 1);
            && UniquedFrom(arr, i) == [arr[last]] + UniquedFrom(arr, last + 1)
            && Dups(arr, i) == DupsInner(arr, i, i + 1) + Dups(arr, last + 1)
  {
  }

  // ---------------------------------------------------------------------------
  // What the de-duplication guarantees

  /** `RJfolder.length - uniqueRJfolder.length` is the number of ids pushed onto `duplicateID`. */
  lemma DuplicateCount(arr: seq<FolderEntry>)
    ensures |arr| - |Uniqued(arr)| == |Dups(arr, 0)|
  {
    DupsShape(arr, 0);
    UniquedAtKept(arr, 0);
  }

  /** No folder id is lost: every id of the input is the id of some surviving entry. */
  lemma EveryIdSurvives(arr: seq<FolderEntry>, k: nat)
    requires k < |arr|
    ensures exists u | u in Uniqued(arr) :: u.id == arr[k].id
    decreases |arr| - k
  {
    var kept := Kept(arr, 0);
    KeptShape(arr, 0);
    UniquedAtKept(arr, 0);
    if k in kept {
      var t :| 0 <= t < |kept| && kept[t] == k;
      assert Uniqued(arr)[t] == arr[k];
    } else {
      var q :| k < q < |arr| && arr[q].id == arr[k].id;
      EveryIdSurvives(arr, q);
    }
  }

  /** The survivors keep their input order, and the last entry always survives. */
  lemma SurvivorsInOrder(arr: seq<FolderEntry>)
    ensures exists kept: seq<nat> ::
      |kept| == |Uniqued(arr)|
      && (forall t | 0 <= t < |kept| :: kept[t] < |arr| && Uniqued(arr)[t] == arr[kept[t]])
      && (forall s, t | 0 <= s < t < |kept| :: kept[s] < kept[t])
    ensures |arr| > 0 ==> |Uniqued(arr)| > 0 && Uniqued(arr)[|Uniqued(arr)| - 1] == arr[|arr| - 1]
  {
    var kept := Kept(arr, 0);
    KeptShape(arr, 0);
    UniquedAtKept(arr, 0);
    assert |kept| == |Uniqued(arr)|;
  }

  /** Every reported duplicate id occurs at two different positions, and none is reported twice. */
  lemma DuplicatesAreRepeated(arr: seq<FolderEntry>)
    ensures forall x | x in DuplicateIds(arr) :: exists p, q | 0 <= p < q < |arr| :: arr[p].id == x && arr[q].id == x
    ensures forall s, t | 0 <= s < t < |DuplicateIds(arr)| :: DuplicateIds(arr)[s] != DuplicateIds(arr)[t]
  {
    DupsShape(arr, 0);
    forall x | x in DuplicateIds(arr)
      ensures exists p, q | 0 <= p < q < |arr| :: arr[p].id == x && arr[q].id == x
    {
      var k :| 0 <= k < |arr| && arr[k].id == x && HasLaterTwin(arr, k);
      var q :| k < q < |arr| && arr[q].id == arr[k].id;
    }
  }

  predicate DistinctIds(arr: seq<FolderEntry>)
  {
    forall p, q | 0 <= p < q < |arr| :: arr[p].id != arr[q].id
  }

  /** Input whose ids are pairwise distinct passes through unchanged, with no duplicates. */
  lemma DistinctUnchanged(arr: seq<FolderEntry>)
    requires DistinctIds(arr)
    ensures Uniqued(arr) == arr
    ensures DuplicateIds(arr) == []
  {
    assert forall k | 0 <= k < |arr| :: !HasLaterTwin(arr, k);
    KeptAll(arr, 0);
    UniquedAtKept(arr, 0);
    assert forall t | 0 <= t < |arr| :: Uniqued(arr)[t] == arr[t];
  }

  lemma {:induction false} KeptAll(arr: seq<FolderEntry>, i: nat)
    requires i <= |arr|
    requires forall k | 0 <= k < |arr| :: !HasLaterTwin(arr, k)
    ensures |Kept(arr, i)| == |arr| - i
    ensures forall t | 0 <= t < |Kept(arr, i)| :: Kept(arr, i)[t] == i + t
    ensures Dups(arr, i) == []
    decreases |arr| - i
  {
    if i < |arr| {
      InnerSkipsTwins(arr, i, i + 1);
      assert !HasLaterTwin(arr, i);
      KeptAll(arr, i + 1);
    }
  }

  /**
   * Not a true de-duplication: in folders for ids 1, 2, 2, 1 the first folder is
   * overtaken by the last one, while both folders for id 2 survive.
   */
  lemma TwinsCanSurvive()
    ensures var arr := [FolderEntry("1", "a"), FolderEntry("2", "b"), FolderEntry("2", "c"), FolderEntry("1", "d")];
            && Uniqued(arr) == [arr[1], arr[2], arr[3]]
            && DuplicateIds(arr) == ["1"]
  {
    var arr := [FolderEntry("1", "a"), FolderEntry("2", "b"), FolderEntry("2", "c"), FolderEntry("1", "d")];
    TwinsOutcome(arr);
    assert Distinct(["1"]) == ["1"];
  }

  /** For ids 1, 2, 2, 1 the first position alone is skipped, and its id is the one pushed. */
  lemma TwinsOutcome(arr: seq<FolderEntry>)
    requires |arr| == 4
    requires arr[0].id == "1" && arr[1].id == "2" && arr[2].id == "2" && arr[3].id == "1"
    ensures Uniqued(arr) == [arr[1], arr[2], arr[3]] && Dups(arr, 0) == ["1"]
  {
    TwinsTail(arr);
    TwinsHead(arr);
    assert UniquedFrom(arr, 0) == [arr[1]] + UniquedFrom(arr, 2);
    assert Dups(arr, 0) == ["1"] + Dups(arr, 2);
  }

  /** For ids 1, 2, 2, 1 the first position is skipped at once, its id pushed once. */
  lemma TwinsHead(arr: seq<FolderEntry>)
    requires |arr| == 4
    requires arr[0].id == "1" && arr[1].id == "2" && arr[2].id == "2" && arr[3].id == "1"
    ensures Inner(arr, 0, 1) == 1 && DupsInner(arr, 0, 1) == ["1"]
  {
    assert arr[0].id != arr[1].id by { assert "1"[0] != "2"[0]; }
    assert Inner(arr, 0, 3) == 1;
    assert Inner(arr, 0, 1) == Inner(arr, 0, 2) == Inner(arr, 0, 3);
    assert DupsInner(arr, 0, 3) == ["1"] + DupsInner(arr, 1, 4);
    assert DupsInner(arr, 0, 1) == DupsInner(arr, 0, 2) == DupsInner(arr, 0, 3);
  }

  /** For ids 1, 2, 2, 1 everything from the third position on survives. */
  lemma TwinsTail(arr: seq<FolderEntry>)
    requires |arr| == 4
    requires arr[0].id == "1" && arr[1].id == "2" && arr[2].id == "2" && arr[3].id == "1"
    ensures UniquedFrom(arr, 2) == [arr[2], arr[3]] && Dups(arr, 2) == []
  {
    assert arr[2].id != arr[3].id by { assert "2"[0] != "1"[0]; }
    assert Inner(arr, 3, 4) == 3 && DupsInner(arr, 3, 4) == [];
    assert UniquedFrom(arr, 4) == [] && Dups(arr, 4) == [];
    assert UniquedFrom(arr, 3) == [arr[3]] && Dups(arr, 3) == [];
    assert Inner(arr, 2, 3) == Inner(arr, 2, 4) == 2;
    assert DupsInner(arr, 2, 3) == DupsInner(arr, 2, 4) == [];
  }
}
