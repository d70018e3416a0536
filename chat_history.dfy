/**
 * The `chatHistory` map of Node.js and its `POST /api/chat/history` handler: every post appends the
 * message to the list of its session, creating the list on the session's first post.
 */
module ChatHistory {
  import Js

  /** The list kept for `id`, or the empty list for a session never posted to. */
  function HistoryOf(sessions: map<Js.Value, seq<Js.Value>>, id: Js.Value): seq<Js.Value> {
    if id in sessions then sessions[id] else []
  }

  /** The map after posting `message` to session `id`. */
  function Appended(sessions: map<Js.Value, seq<Js.Value>>, id: Js.Value, message: Js.Value): map<Js.Value, seq<Js.Value>> {
    sessions[id := HistoryOf(sessions, id) + [message]]
  }

  /** The server-wide `chatHistory`. */
  class Store {
    var sessions: map<Js.Value, seq<Js.Value>>

    constructor ()
      ensures sessions == map[]
    {
      sessions := map[];
    }

    /** The handler: create the list when the session has none, push the message, answer `{ success: true }`. */
    method Post(sessionId: Js.Value, message: Js.Value) returns (success: bool)
      modifies this
      ensures sessions == Appended(old(sessions), sessionId, message)
      ensures success
    {
      if sessionId !in sessions {
        sessions := sessions[sessionId := []];
      }
      sessions := sessions[sessionId := sessions[sessionId] + [message]];
      success := true;
    }
  }

  /** The posted session's list is its old list, or the empty one, with the message added at the end: one longer, old entries kept. */
  lemma AppendGrowsByOne(sessions: map<Js.Value, seq<Js.Value>>, id: Js.Value, message: Js.Value)
    ensures var h := HistoryOf(Appended(sessions, id, message), id);
      && |h| == |HistoryOf(sessions, id)| + 1
      && h[..|h| - 1] == HistoryOf(sessions, id)
      && h[|h| - 1] == message
  {
    var h := HistoryOf(Appended(sessions, id, message), id);
    assert h == HistoryOf(sessions, id) + [message];
    assert h[..|h| - 1] == HistoryOf(sessions, id);
  }

  /** Every other session keeps its list, and the sessions known are the old ones plus the posted one. */
  lemma AppendLeavesOthers(sessions: map<Js.Value, seq<Js.Value>>, id: Js.Value, message: Js.Value, other: Js.Value)
    requires other != id
    ensures HistoryOf(Appended(sessions, id, message), other) == HistoryOf(sessions, other)
    ensures (other in Appended(sessions, id, message)) <==> (other in sessions)
    ensures id in Appended(sessions, id, message)
  {
  }

  /** A session's first post creates its list holding just that message. */
  lemma FirstPostCreates(sessions: map<Js.Value, seq<Js.Value>>, id: Js.Value, message: Js.Value)
    requires id !in sessions
    ensures Appended(sessions, id, message)[id] == [message]
  {
  }

  /** The map after the posts `posts`, oldest first, into an empty history. */
  function Replay(posts: seq<(Js.Value, Js.Value)>): map<Js.Value, seq<Js.Value>> {
    if posts == [] then map[]
    else
      var last := posts[|posts| - 1];
      Appended(Replay(posts[..|posts| - 1]), last.0, last.1)
  }

  /** The messages posted to `id`, in posting order. */
  function PostedTo(posts: seq<(Js.Value, Js.Value)>, id: Js.Value): seq<Js.Value> {
    if posts == [] then []
    else
      var last := posts[|posts| - 1];
      PostedTo(posts[..|posts| - 1], id) + (if last.0 == id then [last.1] else [])
  }

  /** After any run of posts, a session's list holds exactly the messages posted to it, in order, and only sessions posted to have a list. */
  lemma {:induction false} ReplayKeepsPostOrder(posts: seq<(Js.Value, Js.Value)>, id: Js.Value)
    ensures HistoryOf(Replay(posts), id) == PostedTo(posts, id)
    ensures id in Replay(posts) <==> exists k :: 0 <= k < |posts| && posts[k].0 == id
  {
    if posts != [] {
      var init := posts[..|posts| - 1];
      ReplayKeepsPostOrder(init, id);
      var last := posts[|posts| - 1];
      if last.0 != id {
        AppendLeavesOthers(Replay(init), last.0, last.1, id);
      }
      if id in Replay(posts) && last.0 != id {
        var k :| 0 <= k < |init| && init[k].0 == id;
        assert posts[k] == init[k];
      }
      if exists k :: 0 <= k < |posts| && posts[k].0 == id {
        var k :| 0 <= k < |posts| && posts[k].0 == id;
        if k < |init| {
          assert init[k] == posts[k];
        }
      }
    }
  }
}
