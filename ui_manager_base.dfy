/**
 * The UI manager's registry of frames and dialogs: at start-up every UI object in the scene
 * is entered under its ID and hidden, the first UI found keeping an ID that repeats; lookups
 * by ID return the registered UI or null, and fail while Start has not built the registries.
 */
module UI {
  import opened Wrappers

  /** A UIBase: its ID and the Show calls it has received, in order. */
  class UIElement<Id(==)> {
    const id: Id
    var shows: seq<bool>

    constructor (id: Id)
      ensures this.id == id && shows == []
    {
      this.id := id;
      shows := [];
    }

    method Show(visible: bool)
      modifies this
      ensures shows == old(shows) + [visible]
    {
      shows := shows + [visible];
    }
  }

  /** The registry built from the UIs found, in the order found: the first UI with an ID keeps it. */
  function FirstById<Id(==)>(uis: seq<UIElement<Id>>): map<Id, UIElement<Id>>
  {
    if uis == [] then map[]
    else
      var earlier := FirstById(uis[..|uis| - 1]);
      var ui := uis[|uis| - 1];
      if ui.id in earlier then earlier else earlier[ui.id := ui]
  }

  /** No UI before position `i` has the ID of the UI at `i`. */
  predicate IsFirstWithId<Id(==)>(uis: seq<UIElement<Id>>, i: nat)
    requires i < |uis|
  {
    forall j :: 0 <= j < i ==> uis[j].id != uis[i].id
  }

  /** Every UI in the registry is a UI found, filed under its own ID. */
  lemma {:induction false} FirstByIdEntries<Id>(uis: seq<UIElement<Id>>)
    ensures forall id :: id in FirstById(uis) ==> FirstById(uis)[id].id == id && FirstById(uis)[id] in uis
  {
    if uis != [] {
      var init := uis[..|uis| - 1];
      FirstByIdEntries(init);
      assert forall u :: u in init ==> u in uis;
    }
  }

  /** The registry's keys are exactly the IDs of the UIs found. */
  lemma {:induction false} FirstByIdKeys<Id>(uis: seq<UIElement<Id>>)
    ensures FirstById(uis).Keys == set i | 0 <= i < |uis| :: uis[i].id
  {
    if uis != [] {
      var init := uis[..|uis| - 1];
      FirstByIdKeys(init);
      assert forall i :: 0 <= i < |init| ==> init[i] == uis[i];
      assert (set i | 0 <= i < |uis| :: uis[i].id) == (set i | 0 <= i < |init| :: init[i].id) + {uis[|uis| - 1].id};
    }
  }

  /** A repeated ID is filed under the first UI found with it; later ones are skipped. */
  lemma {:induction false} FirstByIdFirstWins<Id>(uis: seq<UIElement<Id>>)
    ensures forall i :: 0 <= i < |uis| && IsFirstWithId(uis, i) ==>
              uis[i].id in FirstById(uis) && FirstById(uis)[uis[i].id] == uis[i]
  {
    if uis != [] {
      var init := uis[..|uis| - 1];
      FirstByIdFirstWins(init);
      FirstByIdKeys(init);
      FirstByIdKeys(uis);
      forall i | 0 <= i < |uis| && IsFirstWithId(uis, i)
        ensures uis[i].id in FirstById(uis) && FirstById(uis)[uis[i].id] == uis[i]
      {
        if i < |init| {
          assert IsFirstWithId(init, i);
          assert uis[i].id in FirstById(init);
        } else {
          assert forall j :: 0 <= j < |init| ==> init[j].id != uis[i].id;
        }
      }
    }
  }

  /** Filing a value under a new key adds exactly that value to the values. */
  lemma ValuesAfterAdd<K, V>(m: map<K, V>, k: K, v: V)
    requires k !in m
    ensures m[k := v].Values == m.Values + {v}
  {
    forall w | w in m[k := v].Values
      ensures w in m.Values + {v}
    {
      var key :| key in m[k := v] && m[k := v][key] == w;
      if key != k {
        assert m[key] == w;
      }
    }
    forall w | w in m.Values
      ensures w in m[k := v].Values
    {
      var key :| key in m && m[key] == w;
      assert m[k := v][key] == w;
    }
    assert m[k := v][k] == v;
  }

  /**
   * FindUIs over the UIs the scene search returns, in that order: a fresh registry, each UI
   * with a new ID added and hidden, a UI with an ID already taken skipped.
   */
  method FindUIs<Id(==)>(found: seq<UIElement<Id>>) returns (dic: map<Id, UIElement<Id>>)
    modifies set u | u in found
    ensures dic == FirstById(found)
    ensures forall u :: u in found ==> u.shows == old(u.shows) + (if u in dic.Values then [false] else [])
  {
    dic := map[];
    for i := 0 to |found|
      invariant dic == FirstById(found[..i])
      invariant forall u :: u in found ==> u.shows == old(u.shows) + (if u in dic.Values then [false] else [])
    {
      var ui := found[i];
      assert found[..i + 1][..i] == found[..i];
      if ui.id in dic {
        continue;
      }
      FirstByIdEntries(found[..i]);
      assert ui !in dic.Values;
      ValuesAfterAdd(dic, ui.id, ui);
      dic := dic[ui.id := ui];
      ui.Show(false);
    }
    assert found[..|found|] == found;
  }

  /** What a lookup throws: the registry it reads has not been built by Start yet. */
  datatype LookupError = RegistryNotBuilt

  /**
   * The manager's two registries, of frames and of dialogs, each with its own ID type.
   * Neither field has an initializer, so each is null (None) until Start builds it.
   */
  class UIManager<FrameId(==), DialogId(==)> {
    var frames: Option<map<FrameId, UIElement<FrameId>>>
    var dialogs: Option<map<DialogId, UIElement<DialogId>>>

    constructor ()
      ensures frames == None && dialogs == None
    {
      frames := None;
      dialogs := None;
    }

    /**
     * Start: both registries rebuilt from the frames and dialogs in the scene, and each UI
     * filed hidden once. Frames and dialogs are objects of different classes, so the two
     * lists share no object.
     */
    method Start(foundFrames: seq<UIElement<FrameId>>, foundDialogs: seq<UIElement<DialogId>>)
      requires (set f | f in foundFrames :: f as object) !! (set d | d in foundDialogs :: d as object)
      modifies this, set u | u in foundFrames, set u | u in foundDialogs
      ensures frames == Some(FirstById(foundFrames)) && dialogs == Some(FirstById(foundDialogs))
      ensures forall u :: u in foundFrames ==>
                u.shows == old(u.shows) + (if u in FirstById(foundFrames).Values then [false] else [])
      ensures forall u :: u in foundDialogs ==>
                u.shows == old(u.shows) + (if u in FirstById(foundDialogs).Values then [false] else [])
    {
      ghost var frameObjects := set f | f in foundFrames :: f as object;
      ghost var dialogObjects := set d | d in foundDialogs :: d as object;
      var f := FindUIs(foundFrames);
      frames := Some(f);
      assert forall u :: u in foundDialogs ==> u as object in dialogObjects && u as object !in frameObjects;
      assert forall u :: u in foundDialogs ==> u.shows == old(u.shows);
      label framesFiled:
      var d := FindUIs(foundDialogs);
      dialogs := Some(d);
      assert forall u :: u in foundFrames ==> u as object in frameObjects && u as object !in dialogObjects;
      assert forall u :: u in foundFrames ==> u.shows == old@framesFiled(u.shows);
    }

    /**
     * GetFrame: the frame registered under `frameId`, or null (with an error logged) if none
     * is; before Start the registry is null and the lookup throws.
     */
    function GetFrame(frameId: FrameId): (r: Result<UIElement?<FrameId>, LookupError>)
      reads this
      ensures r.Err? <==> frames.None?
      ensures r.Ok? ==> (r.value == null <==> frameId !in frames.value)
      ensures r.Ok? && r.value != null ==> r.value == frames.value[frameId]
    {
      match frames
      case None => Err(RegistryNotBuilt)
      case Some(registry) => if frameId !in registry then Ok(null) else Ok(registry[frameId])
    }

    /**
     * GetDialog: the dialog registered under `dialogId`, or null (with an error logged) if
     * none is; before Start the registry is null and the lookup throws.
     */
    function GetDialog(dialogId: DialogId): (r: Result<UIElement?<DialogId>, LookupError>)
      reads this
      ensures r.Err? <==> dialogs.None?
      ensures r.Ok? ==> (r.value == null <==> dialogId !in dialogs.value)
      ensures r.Ok? && r.value != null ==> r.value == dialogs.value[dialogId]
    {
      match dialogs
      case None => Err(RegistryNotBuilt)
      case Some(registry) => if dialogId !in registry then Ok(null) else Ok(registry[dialogId])
    }
  }
}
