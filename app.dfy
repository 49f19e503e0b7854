/**
 * The root view: an ordered list of records, the id of the image shown
 * fullscreen (if any) and whether the composer's input has focus, together
 * with the handlers that update them.
 */
module App {
  import opened Wrappers
  import opened MessageUtils

  /** JavaScript truthiness of a `number | null` value: null and 0 are falsy. */
  predicate Truthy(x: Option<int>)
    ensures x == None ==> !Truthy(x)
    ensures x == Some(0) ==> !Truthy(x)
    ensures Truthy(x) ==> x.Some?
    ensures x.Some? && x.value != 0 ==> Truthy(x)
  {
    x.Some? && x.value != 0
  }

  /** Every id in `msgs` was issued by a counter that now stands at `hi`. */
  predicate IdsWithin(msgs: seq<Message>, hi: int) {
    forall i :: 0 <= i < |msgs| ==> 1 <= msgs[i].id <= hi
  }

  /** No two records of `msgs` share an id. */
  predicate IdsDistinct(msgs: seq<Message>) {
    forall i, j :: 0 <= i < j < |msgs| ==> msgs[i].id != msgs[j].id
  }

  /**
   * `msgs.filter(m => m.id !== id)`: every record with that id goes, each
   * other record stays as often as it was there.
   */
  function Delete(msgs: seq<Message>, id: int): (r: seq<Message>)
    ensures |r| <= |msgs|
    ensures forall i :: 0 <= i < |r| ==> r[i].id != id
  {
    if msgs == [] then []
    else if msgs[0].id == id then Delete(msgs[1..], id)
    else [msgs[0]] + Delete(msgs[1..], id)
  }

  /** Exactly the records with that id go: every other record keeps its multiplicity. */
  lemma {:induction false} DeleteCounts(msgs: seq<Message>, id: int)
    ensures forall m :: multiset(Delete(msgs, id))[m] == if m.id == id then 0 else multiset(msgs)[m]
  {
    if msgs != [] {
      DeleteCounts(msgs[1..], id);
      assert msgs == [msgs[0]] + msgs[1..];
    }
  }

  /** A record survives exactly when it was there and carries another id. */
  lemma {:induction false} DeleteMembers(msgs: seq<Message>, id: int)
    ensures forall m :: m in Delete(msgs, id) <==> m in msgs && m.id != id
  {
    if msgs != [] {
      DeleteMembers(msgs[1..], id);
      assert msgs == [msgs[0]] + msgs[1..];
    }
  }

  /** Filtering distributes over concatenation, so the survivors keep their relative order. */
  lemma {:induction false} DeleteAppend(a: seq<Message>, b: seq<Message>, id: int)
    ensures Delete(a + b, id) == Delete(a, id) + Delete(b, id)
  {
    if a != [] {
      assert (a + b)[1..] == a[1..] + b;
      DeleteAppend(a[1..], b, id);
    } else {
      assert a + b == b;
    }
  }

  /** Deleting an id that no record carries leaves the list as it was. */
  lemma {:induction false} DeleteAbsent(msgs: seq<Message>, id: int)
    requires forall i :: 0 <= i < |msgs| ==> msgs[i].id != id
    ensures Delete(msgs, id) == msgs
  {
    if msgs != [] {
      DeleteAbsent(msgs[1..], id);
    }
  }

  /** Filtering keeps ids distinct and within the issued range. */
  lemma {:induction false} DeleteKeepsIds(msgs: seq<Message>, id: int, hi: int)
    requires IdsDistinct(msgs) && IdsWithin(msgs, hi)
    ensures IdsDistinct(Delete(msgs, id)) && IdsWithin(Delete(msgs, id), hi)
  {
    if msgs != [] {
      var tail := msgs[1..];
      DeleteKeepsIds(tail, id, hi);
      var rest := Delete(tail, id);
      DeleteMembers(tail, id);
      forall k | 0 <= k < |rest| ensures rest[k].id != msgs[0].id {
        assert rest[k] in tail;
        var j :| 0 <= j < |tail| && tail[j] == rest[k];
        assert tail[j] == msgs[j + 1];
      }
      if msgs[0].id != id {
        var r := [msgs[0]] + rest;
        assert Delete(msgs, id) == r;
        forall i, j | 0 <= i < j < |r| ensures r[i].id != r[j].id {
          if i == 0 { assert r[j] == rest[j - 1]; }
          else { assert r[i] == rest[i - 1] && r[j] == rest[j - 1]; }
        }
      }
    }
  }

  /**
   * The position of the record that `msgs.find(m => m.id === id)` returns:
   * the first position holding that id, or `None` when `find` finds nothing.
   */
  function FindIndexById(msgs: seq<Message>, id: int): (r: Option<nat>)
    ensures r.Some? ==> r.value < |msgs| && msgs[r.value].id == id
    ensures r.Some? ==> forall j :: 0 <= j < r.value ==> msgs[j].id != id
    ensures r.None? <==> forall j :: 0 <= j < |msgs| ==> msgs[j].id != id
  {
    if msgs == [] then None
    else if msgs[0].id == id then Some(0)
    else match FindIndexById(msgs[1..], id)
      case None => None
      case Some(k) => Some(k + 1)
  }

  /** With distinct ids, the first position holding an id is its only one. */
  lemma FindIndexByIdUnique(msgs: seq<Message>, k: nat)
    requires IdsDistinct(msgs) && k < |msgs|
    ensures FindIndexById(msgs, msgs[k].id) == Some(k)
  {
  }

  /**
   * The lookup behind the fullscreen overlay: the uri to show, or `None` when
   * nothing is shown. An image is shown only when the target id is truthy and
   * the first record with that id is an image.
   */
  function FullscreenImageUri(msgs: seq<Message>, target: Option<int>): (r: Option<string>)
    ensures r.Some? ==> Truthy(target) && Image(target.value, r.value) in msgs
    ensures !Truthy(target) ==> r.None?
    ensures Truthy(target) && (forall i :: 0 <= i < |msgs| ==> msgs[i].id != target.value) ==> r.None?
  {
    if !Truthy(target) then None
    else match FindIndexById(msgs, target.value)
      case None => None
      case Some(k) => if msgs[k].Image? then Some(msgs[k].uri) else None
  }

  /** With distinct ids, the overlay shows `u` exactly when the target names an image record with uri `u`. */
  lemma FullscreenImageShown(msgs: seq<Message>, target: Option<int>, u: string)
    requires IdsDistinct(msgs)
    ensures FullscreenImageUri(msgs, target) == Some(u) <==> Truthy(target) && Image(target.value, u) in msgs
  {
    if Truthy(target) && Image(target.value, u) in msgs {
      var k :| 0 <= k < |msgs| && msgs[k] == Image(target.value, u);
      FindIndexByIdUnique(msgs, k);
    }
  }

  /** Because no record has id 0, a fullscreen target is truthy exactly when it is set. */
  lemma TruthyIffSet(target: Option<int>)
    requires target.Some? ==> target.value >= 1
    ensures Truthy(target) <==> target.Some?
  {
  }

  /** Some image record in `msgs` carries id `target`. */
  ghost predicate HasImage(msgs: seq<Message>, target: int) {
    exists u :: Image(target, u) in msgs
  }

  /** Every record of `msgs` carrying `id` is a text record (so deleting `id` removes no image). */
  predicate OnlyTextCarries(msgs: seq<Message>, id: int) {
    forall i :: 0 <= i < |msgs| && msgs[i].id == id ==> msgs[i].Text?
  }

  class App {
    /** The shared factory counter of the message module. */
    const ids: IdCounter
    var messages: seq<Message>
    var fullscreenImageId: Option<int>
    var isInputFocused: bool

    /**
     * Ids are distinct and issued by `ids`; a fullscreen target is never 0
     * and names an image record of the list.
     */
    ghost predicate Valid()
      reads this, ids
    {
      IdsWithin(messages, ids.messageId) && IdsDistinct(messages) &&
      (fullscreenImageId.Some? ==> fullscreenImageId.value >= 1) &&
      (fullscreenImageId.Some? ==> HasImage(messages, fullscreenImageId.value))
    }

    /** The initial state: four seed records made by the factory in this order. */
    constructor (ids: IdCounter)
      modifies ids
      ensures this.ids == ids && Valid()
      ensures ids.messageId == old(ids.messageId) + 4
      ensures var c := old(ids.messageId);
        messages == [Image(c + 1, "https://unsplash.it/300/300"), Text(c + 2, "World"), Text(c + 3, "Hello"),
                     Location(c + 4, Coordinate(37.78825, -122.4324))]
      ensures fullscreenImageId == None && !isInputFocused
    {
      var m1 := ids.CreateImageMessage("https://unsplash.it/300/300");
      var m2 := ids.CreateTextMessage("World");
      var m3 := ids.CreateTextMessage("Hello");
      var m4 := ids.CreateLocationMessage(Coordinate(37.78825, -122.4324));
      this.ids := ids;
      messages := [m1, m2, m3, m4];
      fullscreenImageId := None;
      isInputFocused := false;
    }

    /**
     * The hardware back button: consumed (true) and the overlay closed exactly
     * when a fullscreen image is drawn; otherwise passed through, nothing changed.
     */
    method HandleBackPress() returns (handled: bool)
      requires Valid()
      modifies this
      ensures Valid()
      ensures handled == Truthy(old(fullscreenImageId))
      ensures handled <==> old(fullscreenImageId).Some?
      ensures handled <==> FullscreenImageUri(old(messages), old(fullscreenImageId)).Some?
      ensures fullscreenImageId == if handled then None else old(fullscreenImageId)
      ensures messages == old(messages) && isInputFocused == old(isInputFocused)
    {
      TruthyIffSet(fullscreenImageId);
      if fullscreenImageId.Some? {
        var u :| Image(fullscreenImageId.value, u) in messages;
        var k :| 0 <= k < |messages| && messages[k] == Image(fullscreenImageId.value, u);
        FindIndexByIdUnique(messages, k);
      }
      if Truthy(fullscreenImageId) {
        DismissFullscreenImage();
        handled := true;
      } else {
        handled := false;
      }
    }

    method DismissFullscreenImage()
      requires Valid()
      modifies this
      ensures Valid()
      ensures fullscreenImageId == None
      ensures messages == old(messages) && isInputFocused == old(isInputFocused)
    {
      fullscreenImageId := None;
    }

    /** Only called for a text record (the confirm branch of a text press), so no image goes. */
    method DeleteMessage(id: int)
      requires Valid() && OnlyTextCarries(messages, id)
      modifies this
      ensures Valid()
      ensures messages == Delete(old(messages), id)
      ensures fullscreenImageId == old(fullscreenImageId) && isInputFocused == old(isInputFocused)
    {
      DeleteKeepsIds(messages, id, ids.messageId);
      DeleteMembers(messages, id);
      if fullscreenImageId.Some? {
        var u :| Image(fullscreenImageId.value, u) in messages;
        assert Image(fullscreenImageId.value, u) in Delete(messages, id);
      }
      messages := Delete(messages, id);
    }

    /**
     * A tap on a record of the list. A text record asks for confirmation
     * (`confirmDelete` is the user's answer) and is deleted on confirm; an
     * image record opens fullscreen and drops input focus; anything else is
     * ignored.
     */
    method HandlePressMessage(pressed: Message, confirmDelete: bool)
      requires Valid() && pressed in messages
      modifies this
      ensures Valid()
      ensures pressed.Text? ==>
        messages == (if confirmDelete then Delete(old(messages), pressed.id) else old(messages)) &&
        fullscreenImageId == old(fullscreenImageId) && isInputFocused == old(isInputFocused)
      ensures pressed.Image? ==>
        fullscreenImageId == Some(pressed.id) && !isInputFocused && messages == old(messages)
      ensures pressed.Location? ==>
        messages == old(messages) && fullscreenImageId == old(fullscreenImageId) &&
        isInputFocused == old(isInputFocused)
    {
      match pressed.KindOf()
      case TextKind =>
        if confirmDelete {
          var k :| 0 <= k < |messages| && messages[k] == pressed;
          assert OnlyTextCarries(messages, pressed.id) by {
            forall i | 0 <= i < |messages| && messages[i].id == pressed.id ensures messages[i].Text? {
              assert i == k;
            }
          }
          DeleteMessage(pressed.id);
        }
      case ImageKind =>
        assert Image(pressed.id, pressed.uri) in messages;
        fullscreenImageId, isInputFocused := Some(pressed.id), false;
      case LocationKind =>
    }

    method HandleChangeFocus(focused: bool)
      requires Valid()
      modifies this
      ensures Valid()
      ensures isInputFocused == focused
      ensures messages == old(messages) && fullscreenImageId == old(fullscreenImageId)
    {
      isInputFocused := focused;
    }

    /** Prepend a new text record whose id exceeds every id already in the list. */
    method HandleSubmit(text: string)
      requires Valid()
      modifies this, ids
      ensures Valid()
      ensures ids.messageId == old(ids.messageId) + 1
      ensures messages == [Text(ids.messageId, text)] + old(messages)
      ensures forall i :: 0 <= i < |old(messages)| ==> old(messages)[i].id < messages[0].id
      ensures fullscreenImageId == old(fullscreenImageId) && isInputFocused == old(isInputFocused)
    {
      var m := ids.CreateTextMessage(text);
      messages := [m] + messages;
    }

    method HandlePressToolbarCamera()
      requires Valid()
      modifies this
      ensures Valid()
      ensures !isInputFocused
      ensures messages == old(messages) && fullscreenImageId == old(fullscreenImageId)
    {
      isInputFocused := false;
    }

    method HandlePressToolbarLocation()
      requires Valid()
      modifies this
      ensures Valid()
      ensures !isInputFocused
      ensures messages == old(messages) && fullscreenImageId == old(fullscreenImageId)
    {
      isInputFocused := false;
    }
  }
}
