/**
 * The active-window monitor (`ActiveWindowMonitor.check_active_window` in
 * lib/overlay.py): once a second it matches the foreground window's title
 * against the supported games and reports when the game in front changes.
 * The Win32 calls and the timer are left out; each poll's outcome is a value.
 */
module WindowMonitor {
  import opened Wrappers
  import opened Text

  /** `GAME_WINDOW_TITLES`, in its order: a game and the keyword its window
      title contains. */
  const Games: seq<(string, string)> := [
    ("Genshin Impact", "Genshin Impact"),
    ("Honkai: Star Rail", "Honkai: Star Rail"),
    ("Wuthering Waves", "Wuthering Waves"),
    ("Zenless Zone Zero", "ZenlessZoneZero")
  ]

  /** What one poll saw: the manager was busy with an action of its own, the
      Win32 calls failed, or the foreground window had this title. */
  datatype Poll = InternalAction | Failed | Title(text: string)

  datatype WindowEvent = GameDetected(game: string) | GameLost

  datatype CheckResult = CheckResult(current: Option<string>, event: Option<WindowEvent>)

  /** Game `k`'s keyword occurs in the title and no keyword from index `i` up
      to `k` does. */
  predicate FirstMatch(title: string, i: nat, k: nat)
    requires k < |Games|
  {
    Contains(title, Games[k].1) && forall j :: i <= j < k ==> !Contains(title, Games[j].1)
  }

  /** The first game, from index `i` on, whose keyword occurs in the title. */
  function FindFrom(title: string, i: nat): (r: Option<string>)
    ensures r.Some? ==> exists k :: i <= k < |Games| && Games[k].0 == r.value && FirstMatch(title, i, k)
    ensures r.None? <==> forall k :: i <= k < |Games| ==> !Contains(title, Games[k].1)
    decreases |Games| - i
  {
    if i >= |Games| then None
    else if Contains(title, Games[i].1) then Some(Games[i].0)
    else FindFrom(title, i + 1)
  }

  /** The game a title belongs to: none for an empty title, otherwise the first
      game in table order whose keyword the title contains. */
  function FindGame(title: string): (r: Option<string>)
    ensures r.None? <==> |title| == 0 || forall k :: 0 <= k < |Games| ==> !Contains(title, Games[k].1)
    ensures r.Some? ==> exists k :: 0 <= k < |Games| && Games[k].0 == r.value && FirstMatch(title, 0, k)
  {
    if |title| == 0 then None else FindFrom(title, 0)
  }

  /** `check_active_window`: nothing happens while the manager acts or while
      the overlay itself is in front; otherwise the matched game (none when the
      calls failed) becomes current, announcing a new game and the loss of
      one. */
  function Check(current: Option<string>, poll: Poll, overlayTitle: string): (r: CheckResult)
  {
    if poll.InternalAction? || (poll.Title? && poll.text == overlayTitle) then CheckResult(current, None)
    else
      var found := if poll.Title? then FindGame(poll.text) else None;
      if found.Some? && current != found then CheckResult(found, Some(GameDetected(found.value)))
      else if found.None? && current.Some? then CheckResult(None, Some(GameLost))
      else CheckResult(current, None)
  }

  /** The game that is current after a poll that is not ignored. */
  function Seen(poll: Poll): Option<string> {
    if poll.Title? then FindGame(poll.text) else None
  }

  /** A poll emits exactly when the current game changes: `game_detected` when
      a different game comes to the front, `game_lost` only when a game gives
      way to none. An ignored poll changes nothing, any other leaves the game
      it saw as current. */
  lemma {:induction false} CheckSpec(current: Option<string>, poll: Poll, overlayTitle: string)
    ensures var r := Check(current, poll, overlayTitle);
      && (r.event.Some? <==> r.current != current)
      && (r.event == Some(GameLost) ==> current.Some? && r.current.None?)
      && (r.event.Some? && r.event.value.GameDetected? ==> r.current == Some(r.event.value.game))
      && (poll.InternalAction? || poll == Title(overlayTitle) ==> r.current == current)
      && (!poll.InternalAction? && poll != Title(overlayTitle) ==> r.current == Seen(poll))
  {
  }

  /** A second poll that sees the same thing changes nothing and emits nothing. */
  lemma {:induction false} CheckSettles(current: Option<string>, poll: Poll, overlayTitle: string)
    ensures var r := Check(current, poll, overlayTitle);
      Check(r.current, poll, overlayTitle) == CheckResult(r.current, None)
  {
  }

  /** The state and events after a series of polls. */
  function Monitor(current: Option<string>, polls: seq<Poll>, overlayTitle: string): (r: (Option<string>, seq<WindowEvent>))
    decreases |polls|
  {
    if |polls| == 0 then (current, [])
    else
      var c := Check(current, polls[0], overlayTitle);
      var rest := Monitor(c.current, polls[1..], overlayTitle);
      (rest.0, (if c.event.Some? then [c.event.value] else []) + rest.1)
  }

  /** Over any series of polls the events tell the whole story: replaying them
      from the starting game yields the final game, and two `game_lost` are
      always separated by a `game_detected`. */
  lemma {:induction false} MonitorReplays(current: Option<string>, polls: seq<Poll>, overlayTitle: string)
    ensures var r := Monitor(current, polls, overlayTitle);
      && Replay(current, r.1) == r.0
      && Alternates(current, r.1)
    decreases |polls|
  {
    if |polls| > 0 {
      var c := Check(current, polls[0], overlayTitle);
      CheckSpec(current, polls[0], overlayTitle);
      MonitorReplays(c.current, polls[1..], overlayTitle);
      var rest := Monitor(c.current, polls[1..], overlayTitle).1;
      if c.event.Some? {
        assert ([c.event.value] + rest)[1..] == rest;
      } else {
        assert [] + rest == rest;
      }
    }
  }

  /** The game a listener would believe current after the events. */
  function Replay(current: Option<string>, events: seq<WindowEvent>): Option<string>
    decreases |events|
  {
    if |events| == 0 then current
    else
      var next := match events[0] case GameDetected(g) => Some(g) case GameLost => None;
      Replay(next, events[1..])
  }

  /** Every event changes what a listener believes: a detection names a game
      other than the current one, a loss comes only while a game is current. */
  predicate Alternates(current: Option<string>, events: seq<WindowEvent>)
    decreases |events|
  {
    if |events| == 0 then true
    else
      match events[0]
      case GameDetected(g) => current != Some(g) && Alternates(Some(g), events[1..])
      case GameLost => current.Some? && Alternates(None, events[1..])
  }
}
