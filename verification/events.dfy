/**
 Conversation events and the tracker that records them.

 A tracker is the ordered, append-only history of one conversation. The
 ensemble only reads it, and only to learn which action ran last.
 */
module Events {
  import opened Wrappers

  /** Name of the action that waits for the next user message. */
  const ACTION_LISTEN_NAME: string := "action_listen"

  datatype Event =
    | ActionExecuted(actionName: string)
    | UserUttered(text: string, intent: string)
    | SlotSet(key: string, slotValue: string)
      /** Records whether the previous user turn was featurized from its text
          (end-to-end) or from its intent. */
    | DefinePrevUserUtteredFeaturization(useTextForFeaturization: bool)

  type Tracker = seq<Event>

  /** Position of the most recently executed action, if any action ran yet. */
  function LastActionIndex(tracker: Tracker): (r: Option<nat>)
    ensures r.None? <==> forall k :: 0 <= k < |tracker| ==> !tracker[k].ActionExecuted?
    ensures r.Some? ==> r.value < |tracker| && tracker[r.value].ActionExecuted?
    ensures r.Some? ==> forall j :: r.value < j < |tracker| ==> !tracker[j].ActionExecuted?
  {
    if |tracker| == 0 then None
    else if tracker[|tracker| - 1].ActionExecuted? then Some(|tracker| - 1)
    else LastActionIndex(tracker[..|tracker| - 1])
  }

  /** The name of the most recently executed action, if any action ran yet.
      Of the modelled events only `ActionExecuted` changes it; a user message that follows
      the listen action leaves it at `action_listen`. */
  function LatestActionName(tracker: Tracker): Option<string>
  {
    match LastActionIndex(tracker)
    case None => None
    case Some(k) => Some(tracker[k].actionName)
  }

  /** True when the last thing the bot did was to listen for the user. */
  predicate LatestActionIsListen(tracker: Tracker) {
    LatestActionName(tracker) == Some(ACTION_LISTEN_NAME)
  }

  /** The latest action is the listen action exactly when the tracker holds a listen action
      that no later action execution follows. */
  lemma ListenIsLatestAction(tracker: Tracker)
    ensures LatestActionIsListen(tracker) <==>
      exists k :: 0 <= k < |tracker| && tracker[k] == ActionExecuted(ACTION_LISTEN_NAME)
        && forall j :: k < j < |tracker| ==> !tracker[j].ActionExecuted?
  {
    if k :| (&& 0 <= k < |tracker|
             && tracker[k] == ActionExecuted(ACTION_LISTEN_NAME)
             && forall j :: k < j < |tracker| ==> !tracker[j].ActionExecuted?) {
      var last := LastActionIndex(tracker);
      assert last.Some?;
      assert last.value == k;
    }
    if LatestActionIsListen(tracker) {
      var k := LastActionIndex(tracker).value;
      assert tracker[k] == ActionExecuted(ACTION_LISTEN_NAME);
    }
  }

  /** Events that are not action executions never change the latest action. */
  lemma {:induction false} LatestActionIgnoresOtherEvents(tracker: Tracker, more: seq<Event>)
    requires forall k :: 0 <= k < |more| ==> !more[k].ActionExecuted?
    ensures LastActionIndex(tracker + more) == LastActionIndex(tracker)
    ensures LatestActionName(tracker + more) == LatestActionName(tracker)
    decreases |more|
  {
    if |more| > 0 {
      var shorter := more[..|more| - 1];
      assert (tracker + more)[..|tracker + more| - 1] == tracker + shorter;
      LatestActionIgnoresOtherEvents(tracker, shorter);
    } else {
      assert tracker + more == tracker;
    }
  }
}
