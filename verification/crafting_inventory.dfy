/** The crafting-table inventory translator of the Education-edition connector.

    It maps slot numbers between the Bedrock client's view of a crafting table and the Java
    server's, classifies slots, and turns one batch of Bedrock slot-delta actions into at
    most one call of the action resolver (the strategy that performs the move or craft).
    Logging and the resolver call are recorded in an effect log instead of being performed.
 */
module CraftingInventory {
  import opened Subsequences

  /** The kind of inventory source an action comes from. The translator examines the first
      four kinds; every other kind is collapsed into `OtherSource`. */
  datatype SourceType =
    | UntrackedInteractionUi
    | NonImplementedTodo
    | Container
    | WorldInteraction
    | OtherSource

  /** The Bedrock container ids the translator names. Any other id is `OtherContainer`,
      carrying the number that is logged. */
  datatype ContainerId =
    | Cursor
    | Inventory
    | CraftingAddIngredient
    | CraftingResult
    | NoContainer
    | CraftingUseIngredient
    | OtherContainer(id: int)

  /** One observed slot delta: the source, the slot, and the item counts before and after. */
  datatype Action = Action(
    sourceType: SourceType,
    containerId: ContainerId,
    slot: int,
    fromCount: int,
    toCount: int)

  datatype SlotType = Output | Normal

  /** What one call of the translator does: warnings about unknown container ids, in scan
      order, and at most one call of the action resolver with the two lists. */
  datatype Effect =
    | UnknownContainerWarning(id: int)
    | Resolve(fromActions: seq<Action>, toActions: seq<Action>)

  /** The declared size of the crafting container: one output slot and a 3x3 grid. */
  const Size: int := 10

  /** Bedrock to Java slot. Ingredients put into the grid arrive numbered from 0, while the
      Java grid starts after the output slot; every other container uses the base mapping. */
  function BedrockSlotToJava(action: Action, baseMapping: Action -> int): (slot: int)
    ensures action.containerId == CraftingAddIngredient ==> slot == action.slot + 1
    ensures action.containerId != CraftingAddIngredient ==> slot == baseMapping(action)
  {
    if action.containerId == CraftingAddIngredient then action.slot + 1 else baseMapping(action)
  }

  /** Java to Bedrock slot: the container's own slots keep their number, the rest (the
      player inventory) use the base mapping. */
  function JavaSlotToBedrock(slot: int, baseMapping: int -> int): (r: int)
    ensures slot < Size ==> r == slot
    ensures slot >= Size ==> r == baseMapping(slot)
  {
    if slot < Size then slot else baseMapping(slot)
  }

  function GetSlotType(javaSlot: int): (t: SlotType)
    ensures t == Output <==> javaSlot == 0
    ensures t == Normal <==> javaSlot != 0
  {
    if javaSlot == 0 then Output else Normal
  }

  /** The crafting result's slot 0 is the output. */
  predicate IsOutput(action: Action) {
    action.containerId == CraftingResult && action.slot == 0
  }

  /** A grid ingredient placed in Bedrock slot 0..8 lands on a Java grid slot 1..9: a normal
      slot of the container, which the reverse mapping leaves where it is. */
  lemma IngredientLandsInGrid(action: Action, toJava: Action -> int, toBedrock: int -> int)
    requires action.containerId == CraftingAddIngredient
    requires 0 <= action.slot < Size - 1
    ensures var j := BedrockSlotToJava(action, toJava);
      && 1 <= j < Size
      && GetSlotType(j) == Normal
      && JavaSlotToBedrock(j, toBedrock) == action.slot + 1
  {
  }

  /** On the container's own slots [0, Size) the Java-to-Bedrock mapping is a bijection onto
      [0, Size), whatever the base mapping does elsewhere. */
  lemma ContainerSlotsBijective(toBedrock: int -> int)
    ensures forall s :: 0 <= s < Size ==> 0 <= JavaSlotToBedrock(s, toBedrock) < Size
    ensures forall s, t :: 0 <= s < Size && 0 <= t < Size && JavaSlotToBedrock(s, toBedrock) == JavaSlotToBedrock(t, toBedrock) ==> s == t
    ensures forall b :: 0 <= b < Size ==> JavaSlotToBedrock(b, toBedrock) == b
  {
  }

  // ---------------------------------------------------------------------------------------
  // Action classification

  /** The source kinds the translator looks at; actions of any other kind are ignored. */
  predicate Examined(t: SourceType) {
    t.UntrackedInteractionUi? || t.NonImplementedTodo? || t.Container? || t.WorldInteraction?
  }

  /** The container ids that take part in a move: cursor, inventory, grid input, output, none. */
  predicate Tracked(id: ContainerId) {
    id.Cursor? || id.Inventory? || id.CraftingAddIngredient? || id.CraftingResult? || id.NoContainer?
  }

  predicate Participates(a: Action) {
    Examined(a.sourceType) && Tracked(a.containerId)
  }

  /** An examined action on the ingredient-use container abandons the whole batch. */
  predicate AbortsBatch(a: Action) {
    Examined(a.sourceType) && a.containerId == CraftingUseIngredient
  }

  /** An examined action on an id the translator does not know: logged and skipped. */
  predicate IsUnknown(a: Action) {
    Examined(a.sourceType) && a.containerId.OtherContainer?
  }

  /** Items were taken out of the slot. */
  predicate Removes(a: Action) {
    a.fromCount > a.toCount
  }

  predicate InFromList(a: Action) {
    Participates(a) && Removes(a)
  }

  predicate InToList(a: Action) {
    Participates(a) && !Removes(a)
  }

  /** The "from" list the scan builds over `xs`, in input order. */
  function FromActions(xs: seq<Action>): seq<Action> {
    if xs == [] then []
    else FromActions(xs[..|xs| - 1]) + (if InFromList(xs[|xs| - 1]) then [xs[|xs| - 1]] else [])
  }

  /** The "to" list the scan builds over `xs`, in input order. */
  function ToActions(xs: seq<Action>): seq<Action> {
    if xs == [] then []
    else ToActions(xs[..|xs| - 1]) + (if InToList(xs[|xs| - 1]) then [xs[|xs| - 1]] else [])
  }

  /** The warnings the scan logs over `xs`, in input order. */
  function Warnings(xs: seq<Action>): seq<Effect> {
    if xs == [] then []
    else
      var a := xs[|xs| - 1];
      Warnings(xs[..|xs| - 1]) + (if IsUnknown(a) then [UnknownContainerWarning(a.containerId.id)] else [])
  }

  ghost predicate HasAbort(xs: seq<Action>) {
    exists i :: 0 <= i < |xs| && AbortsBatch(xs[i])
  }

  /** The position of the first aborting action, or |xs| when there is none. */
  function AbortIndex(xs: seq<Action>): (k: nat)
    ensures k <= |xs|
    ensures forall i :: 0 <= i < k ==> !AbortsBatch(xs[i])
    ensures k < |xs| ==> AbortsBatch(xs[k])
  {
    if xs == [] then 0
    else if AbortsBatch(xs[0]) then 0
    else 1 + AbortIndex(xs[1..])
  }

  /** The resolver runs only when both sides of the gesture were seen. */
  function ResolverCall(fromActions: seq<Action>, toActions: seq<Action>): seq<Effect> {
    if fromActions != [] && toActions != [] then [Resolve(fromActions, toActions)] else []
  }

  /** Reference behaviour of one call: an aborted batch keeps only the warnings logged before
      the abort; a completed scan adds the resolver call when both lists are non-empty. */
  function ExpectedEffects(xs: seq<Action>): seq<Effect> {
    var k := AbortIndex(xs);
    if k < |xs| then Warnings(xs[..k])
    else Warnings(xs) + ResolverCall(FromActions(xs), ToActions(xs))
  }

  /** The translator's scan over one batch, with its early return. */
  method TranslateActions(actions: seq<Action>) returns (effects: seq<Effect>)
    ensures effects == ExpectedEffects(actions)
  {
    var fromActions: seq<Action> := [];
    var toActions: seq<Action> := [];
    effects := [];
    var i := 0;
    while i < |actions|
      invariant 0 <= i <= |actions|
      invariant forall j :: 0 <= j < i ==> !AbortsBatch(actions[j])
      invariant fromActions == FromActions(actions[..i])
      invariant toActions == ToActions(actions[..i])
      invariant effects == Warnings(actions[..i])
    {
      var a := actions[i];
      assert actions[..i + 1][..i] == actions[..i];
      if Examined(a.sourceType) {
        match a.containerId {
          case Cursor | Inventory | CraftingAddIngredient | CraftingResult | NoContainer =>
            if a.fromCount > a.toCount {
              fromActions := fromActions + [a];
            } else {
              toActions := toActions + [a];
            }
          case CraftingUseIngredient =>
            return;
          case OtherContainer(id) =>
            effects := effects + [UnknownContainerWarning(id)];
        }
      }
      i := i + 1;
    }
    assert actions[..i] == actions;
    if fromActions != [] && toActions != [] {
      effects := effects + [Resolve(fromActions, toActions)];
    }
  }

  // ---------------------------------------------------------------------------------------
  // Properties of the classification

  function CountResolves(effects: seq<Effect>): nat {
    if effects == [] then 0
    else CountResolves(effects[..|effects| - 1]) + (if effects[|effects| - 1].Resolve? then 1 else 0)
  }

  lemma {:induction false} CountResolvesAppend(a: seq<Effect>, b: seq<Effect>)
    ensures CountResolves(a + b) == CountResolves(a) + CountResolves(b)
  {
    if b == [] {
      assert a + b == a;
    } else {
      assert (a + b)[..|a + b| - 1] == a + b[..|b| - 1];
      CountResolvesAppend(a, b[..|b| - 1]);
    }
  }

  lemma {:induction false} WarningsHaveNoResolve(xs: seq<Action>)
    ensures CountResolves(Warnings(xs)) == 0
    ensures forall e :: e in Warnings(xs) ==> e.UnknownContainerWarning?
  {
    if xs != [] {
      var init, a := xs[..|xs| - 1], xs[|xs| - 1];
      WarningsHaveNoResolve(init);
      var tail := if IsUnknown(a) then [UnknownContainerWarning(a.containerId.id)] else [];
      assert Warnings(xs) == Warnings(init) + tail;
      CountResolvesAppend(Warnings(init), tail);
      assert CountResolves(tail) == 0 by {
        if tail != [] { assert tail[..0] == []; }
      }
    }
  }

  /** A batch that contains an examined ingredient-use action never reaches the resolver,
      even when the actions before it already filled both lists. */
  lemma AbortSuppressesResolver(xs: seq<Action>, i: int)
    requires 0 <= i < |xs| && AbortsBatch(xs[i])
    ensures CountResolves(ExpectedEffects(xs)) == 0
    ensures forall e :: e in ExpectedEffects(xs) ==> e.UnknownContainerWarning?
  {
    assert AbortIndex(xs) <= i;
    WarningsHaveNoResolve(xs[..AbortIndex(xs)]);
  }


  /** The resolver is called exactly once when the scan completes with both lists non-empty,
      and then with those lists; otherwise it is not called at all. */
  lemma ResolverCalledOnceIff(xs: seq<Action>)
    ensures CountResolves(ExpectedEffects(xs)) ==
      (if !HasAbort(xs) && FromActions(xs) != [] && ToActions(xs) != [] then 1 else 0)
    ensures forall e :: e in ExpectedEffects(xs) && e.Resolve? ==>
      !HasAbort(xs) && e == Resolve(FromActions(xs), ToActions(xs))
  {
    var k := AbortIndex(xs);
    if k < |xs| {
      AbortSuppressesResolver(xs, k);
    } else {
      WarningsHaveNoResolve(xs);
      var w := Warnings(xs);
      var c := ResolverCall(FromActions(xs), ToActions(xs));
      if c != [] {
        assert (w + c)[..|w + c| - 1] == w;
      } else {
        assert w + c == w;
      }
    }
  }

  lemma {:induction false} FromActionsMembers(xs: seq<Action>)
    ensures forall a :: a in FromActions(xs) <==> a in xs && InFromList(a)
  {
    if xs != [] {
      FromActionsMembers(xs[..|xs| - 1]);
      assert xs == xs[..|xs| - 1] + [xs[|xs| - 1]];
    }
  }

  lemma {:induction false} ToActionsMembers(xs: seq<Action>)
    ensures forall a :: a in ToActions(xs) <==> a in xs && InToList(a)
  {
    if xs != [] {
      ToActionsMembers(xs[..|xs| - 1]);
      assert xs == xs[..|xs| - 1] + [xs[|xs| - 1]];
    }
  }

  /** The participating actions of `xs`, in input order. */
  function ParticipatingActions(xs: seq<Action>): seq<Action> {
    if xs == [] then []
    else ParticipatingActions(xs[..|xs| - 1]) + (if Participates(xs[|xs| - 1]) then [xs[|xs| - 1]] else [])
  }

  /** Each participating action lands in exactly one list, and nothing else lands in either:
      the two lists split the participating actions, counted with multiplicity. */
  lemma {:induction false} ListsPartitionParticipants(xs: seq<Action>)
    ensures multiset(FromActions(xs)) + multiset(ToActions(xs)) == multiset(ParticipatingActions(xs))
  {
    if xs != [] {
      ListsPartitionParticipants(xs[..|xs| - 1]);
    }
  }

  /** Membership in the lists: "from" exactly when items were removed, "to" otherwise; an
      action of an ignored source kind or an unknown container id is in neither. */
  lemma ListMembership(xs: seq<Action>, a: Action)
    requires a in xs
    ensures a in FromActions(xs) <==> Participates(a) && a.fromCount > a.toCount
    ensures a in ToActions(xs) <==> Participates(a) && a.fromCount <= a.toCount
    ensures !Participates(a) ==> a !in FromActions(xs) && a !in ToActions(xs)
  {
    FromActionsMembers(xs);
    ToActionsMembers(xs);
  }

  lemma {:induction false} FromActionsInOrder(xs: seq<Action>)
    ensures IsSubsequence(FromActions(xs), xs)
  {
    if xs == [] {
      EmptyIsSubsequence(xs);
    } else {
      var init, last := xs[..|xs| - 1], xs[|xs| - 1];
      assert xs == init + [last];
      FromActionsInOrder(init);
      if InFromList(last) {
        assert FromActions(xs) == FromActions(init) + [last];
        KeepLast(FromActions(init), init, last);
      } else {
        assert FromActions(xs) == FromActions(init);
        DropLast(FromActions(init), init, last);
      }
    }
  }

  lemma {:induction false} ToActionsInOrder(xs: seq<Action>)
    ensures IsSubsequence(ToActions(xs), xs)
  {
    if xs == [] {
      EmptyIsSubsequence(xs);
    } else {
      var init, last := xs[..|xs| - 1], xs[|xs| - 1];
      assert xs == init + [last];
      ToActionsInOrder(init);
      if InToList(last) {
        assert ToActions(xs) == ToActions(init) + [last];
        KeepLast(ToActions(init), init, last);
      } else {
        assert ToActions(xs) == ToActions(init);
        DropLast(ToActions(init), init, last);
      }
    }
  }

  lemma {:induction false} ScanDistributes(xs: seq<Action>, ys: seq<Action>)
    ensures FromActions(xs + ys) == FromActions(xs) + FromActions(ys)
    ensures ToActions(xs + ys) == ToActions(xs) + ToActions(ys)
    ensures Warnings(xs + ys) == Warnings(xs) + Warnings(ys)
  {
    if ys == [] {
      assert xs + ys == xs;
    } else {
      var init := ys[..|ys| - 1];
      assert (xs + ys)[..|xs + ys| - 1] == xs + init;
      ScanDistributes(xs, init);
    }
  }

  /** Inserting an action that does not abort changes nothing about whether the batch aborts. */
  lemma InsertKeepsAbort(pre: seq<Action>, a: Action, post: seq<Action>)
    requires !AbortsBatch(a)
    ensures HasAbort(pre + [a] + post) <==> HasAbort(pre + post)
  {
    var s, t := pre + [a] + post, pre + post;
    if HasAbort(s) {
      var i :| 0 <= i < |s| && AbortsBatch(s[i]);
      if i < |pre| { assert t[i] == s[i]; } else { assert i > |pre| && t[i - 1] == s[i]; }
    }
    if HasAbort(t) {
      var i :| 0 <= i < |t| && AbortsBatch(t[i]);
      if i < |pre| { assert s[i] == t[i]; } else { assert s[i + 1] == t[i]; }
    }
  }

  lemma SingletonScan(a: Action)
    ensures FromActions([a]) == (if InFromList(a) then [a] else [])
    ensures ToActions([a]) == (if InToList(a) then [a] else [])
    ensures Warnings([a]) == (if IsUnknown(a) then [UnknownContainerWarning(a.containerId.id)] else [])
  {
  }

  /** An action on an unknown container id only adds its warning: the lists are as if it
      were absent, the scan goes on past it, and whether the batch aborts is unchanged. */
  lemma UnknownIdOnlyWarns(pre: seq<Action>, a: Action, post: seq<Action>)
    requires IsUnknown(a)
    ensures FromActions(pre + [a] + post) == FromActions(pre + post)
    ensures ToActions(pre + [a] + post) == ToActions(pre + post)
    ensures Warnings(pre + [a] + post) == Warnings(pre) + [UnknownContainerWarning(a.containerId.id)] + Warnings(post)
    ensures HasAbort(pre + [a] + post) <==> HasAbort(pre + post)
  {
    var withA := pre + [a];
    SingletonScan(a);
    ScanDistributes(pre, [a]);
    ScanDistributes(withA, post);
    ScanDistributes(pre, post);
    calc {
      FromActions(pre + [a] + post);
      FromActions(withA) + FromActions(post);
      FromActions(pre) + [] + FromActions(post);
      { assert FromActions(pre) + [] == FromActions(pre); }
      FromActions(pre + post);
    }
    calc {
      ToActions(pre + [a] + post);
      ToActions(withA) + ToActions(post);
      ToActions(pre) + [] + ToActions(post);
      { assert ToActions(pre) + [] == ToActions(pre); }
      ToActions(pre + post);
    }
    InsertKeepsAbort(pre, a, post);
  }

  /** The scan's first aborting position is fixed by the two halves of "first". */
  lemma AbortIndexUnique(xs: seq<Action>, k: int)
    requires 0 <= k <= |xs|
    requires forall i :: 0 <= i < k ==> !AbortsBatch(xs[i])
    requires k < |xs| ==> AbortsBatch(xs[k])
    ensures AbortIndex(xs) == k
  {
  }

  /** An action the scan neither keeps nor warns about leaves the lists and the warnings as
      if it were absent. This is about the list and warning functions only; whether the
      batch aborts is a separate question. */
  lemma InertScan(pre: seq<Action>, a: Action, post: seq<Action>)
    requires !Participates(a) && !IsUnknown(a)
    ensures FromActions(pre + [a] + post) == FromActions(pre + post)
    ensures ToActions(pre + [a] + post) == ToActions(pre + post)
    ensures Warnings(pre + [a] + post) == Warnings(pre + post)
  {
    SingletonScan(a);
    ScanDistributes(pre, [a]);
    ScanDistributes(pre + [a], post);
    ScanDistributes(pre, post);
    assert FromActions(pre) + [] == FromActions(pre);
    assert ToActions(pre) + [] == ToActions(pre);
    assert Warnings(pre) + [] == Warnings(pre);
  }

  /** An action whose source kind is not one of the four examined ones is skipped by the
      outer switch: whatever its container id, even the ingredient-use one, the batch has
      the same effects as without it. */
  lemma UnexaminedSourceIgnored(pre: seq<Action>, a: Action, post: seq<Action>)
    requires !Examined(a.sourceType)
    ensures ExpectedEffects(pre + [a] + post) == ExpectedEffects(pre + post)
  {
    var s, t := pre + [a] + post, pre + post;
    var k := AbortIndex(t);
    if k < |pre| {
      assert forall i :: 0 <= i <= k ==> s[i] == t[i];
      AbortIndexUnique(s, k);
      assert s[..k] == t[..k];
    } else if k < |t| {
      forall i | 0 <= i < k + 1 ensures !AbortsBatch(s[i]) {
        if i < |pre| { assert s[i] == t[i]; } else if i > |pre| { assert s[i] == t[i - 1]; }
      }
      assert s[k + 1] == t[k];
      AbortIndexUnique(s, k + 1);
      var mid := post[..k - |pre|];
      assert s[..k + 1] == pre + [a] + mid;
      assert t[..k] == pre + mid;
      InertScan(pre, a, mid);
    } else {
      forall i | 0 <= i < |s| ensures !AbortsBatch(s[i]) {
        if i < |pre| { assert s[i] == t[i]; } else if i > |pre| { assert s[i] == t[i - 1]; }
      }
      AbortIndexUnique(s, |s|);
      InertScan(pre, a, post);
    }
  }

  /** An action on the output slot from an examined source always takes part in the scan:
      it lands in "from" when items were taken out of the output, in "to" otherwise. */
  lemma OutputActionJoinsScan(xs: seq<Action>, a: Action)
    requires a in xs && IsOutput(a) && Examined(a.sourceType)
    ensures Participates(a)
    ensures a in FromActions(xs) <==> Removes(a)
    ensures a in ToActions(xs) <==> !Removes(a)
  {
    ListMembership(xs, a);
  }

  /** One item leaving the cursor and one arriving in the inventory: the resolver is called
      once with the two singleton lists. */
  lemma CursorToInventoryResolves(f: Action, t: Action)
    requires Examined(f.sourceType) && f.containerId == Cursor && f.fromCount > f.toCount
    requires Examined(t.sourceType) && t.containerId == Inventory && t.fromCount < t.toCount
    ensures ExpectedEffects([f, t]) == [Resolve([f], [t])]
  {
    var xs := [f, t];
    assert xs[..1] == [f];
    SingletonScan(f);
    assert FromActions(xs) == [f];
    assert ToActions(xs) == [t];
    assert Warnings(xs) == [];
    assert AbortIndex(xs) == 2 by {
      assert xs[1..] == [t];
      assert [t][1..] == [];
    }
  }
}
