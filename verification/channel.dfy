/** The channel layer's groups, reduced to what the chat uses: a map from group
    name to the set of channel names joined to it, with `group_add`,
    `group_discard` and the fan-out of `group_send`. */
module RoomChannel {
  import Text

  /** The name the channel layer gives one connection. */
  type Channel = string

  type Layer = map<string, set<Channel>>

  /** The fixed namespace of chat groups. */
  const GroupPrefix: string := "event_chat_"

  /** `f"event_chat_{event_id}"`. */
  function GroupName(eventId: nat): (g: string)
    ensures Text.StartsWith(g, GroupPrefix)
    ensures g[|GroupPrefix|..] == Text.NatToString(eventId)
  {
    GroupPrefix + Text.NatToString(eventId)
  }

  /** Distinct events have distinct rooms, so no broadcast of one room can
      reach the group of another. */
  lemma {:induction false} GroupNamesDistinct(a: nat, b: nat)
    requires a != b
    ensures GroupName(a) != GroupName(b)
  {
    Text.NatToStringInjective(a, b);
    assert GroupName(a)[|GroupPrefix|..] == Text.NatToString(a);
  }

  /** The channels joined to group `g`. */
  function Members(layer: Layer, g: string): set<Channel> {
    if g in layer then layer[g] else {}
  }

  /** `group_add(g, c)`. */
  function GroupAdd(layer: Layer, g: string, c: Channel): (l: Layer)
    ensures Members(l, g) == Members(layer, g) + {c}
    ensures forall h :: h != g ==> Members(l, h) == Members(layer, h)
  {
    layer[g := Members(layer, g) + {c}]
  }

  /** `group_discard(g, c)`: a no-op when `c` is not in `g`. */
  function GroupDiscard(layer: Layer, g: string, c: Channel): (l: Layer)
    ensures Members(l, g) == Members(layer, g) - {c}
    ensures forall h :: h != g ==> Members(l, h) == Members(layer, h)
  {
    if g in layer then layer[g := layer[g] - {c}] else layer
  }

  /** Leaving a group one had just joined gives back the membership of every
      group as it was before, when the channel was not already a member. */
  lemma DiscardUndoesAdd(layer: Layer, g: string, c: Channel)
    requires c !in Members(layer, g)
    ensures forall h :: Members(GroupDiscard(GroupAdd(layer, g, c), g, c), h) == Members(layer, h)
  {
  }

  /** `group_send(g, payload)`: every channel joined to `g` at the time of the
      send receives `deliver(payload)` (its consumer's handler for the
      payload's type), and no other channel receives anything. */
  function GroupSend<P, F>(layer: Layer, g: string, payload: P, deliver: P -> F): (out: map<Channel, F>)
    ensures out.Keys == Members(layer, g)
    ensures forall c :: c in out ==> out[c] == deliver(payload)
  {
    map c | c in Members(layer, g) :: deliver(payload)
  }
}
