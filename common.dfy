/** Shared vocabulary of the word-wolf bot model: optional values, user
    identities and the "await one qualifying reply" primitive that every
    human-input point of a game goes through. */
module Common {

  /** A value that may be absent (a timeout, an `undefined` lookup). */
  datatype Option<+T> = None | Some(value: T)

  /** A chat user, identified by its stable id. Two users are the same
      participant exactly when their ids are equal. */
  type User = nat

  /** The bot's own identity: acts as Game Master when nobody volunteers. */
  const House: User := 0

  /** The first element of `s` that `accept` holds for, if any. */
  function FindFirst<T>(s: seq<T>, accept: T -> bool): (r: Option<T>)
    ensures r.Some? ==> r.value in s && accept(r.value)
    ensures r.Some? ==> exists i :: 0 <= i < |s| && s[i] == r.value &&
                                    forall j :: 0 <= j < i ==> !accept(s[j])
    ensures r.None? <==> forall i :: 0 <= i < |s| ==> !accept(s[i])
  {
    if s == [] then None
    else if accept(s[0]) then Some(s[0])
    else
      var r := FindFirst(s[1..], accept);
      assert forall i :: 1 <= i < |s| ==> s[i] == s[1..][i - 1];
      r
  }

  /** One `awaitMessages({ max: 1, filter })` call: `messages` are the
      messages that arrive on the channel before the deadline, in arrival
      order. The first one the filter accepts is the reply; when none is
      accepted the wait times out (None). */
  function Await<T>(messages: seq<T>, accept: T -> bool): Option<T> {
    FindFirst(messages, accept)
  }
}
