/** The key handling of the event loop, on the two globals it writes. */
module Keys {
  import opened Geometry

  /** The queued direction and the pause flag. */
  datatype Control = Control(nextDir: Direction, paused: bool)

  /** One key. Space and `p` toggle the pause. With the mouse protocol the
      wheel letters `A` and `B` queue a right or a left turn of the current
      direction; otherwise the vi keys, WASD, the arrow letters and the
      number pad queue an absolute direction. A direction key ends the pause;
      every other key (`ESC` and `[` among them) changes nothing. */
  function HandleKey(mouse: bool, snakeDir: Direction, c: Control, key: char): (r: Control)
  {
    if key == ' ' || key == 'p' then c.(paused := !c.paused)
    else if mouse then
      if key == 'A' then Control(TurnRight(snakeDir), false)
      else if key == 'B' then Control(TurnLeft(snakeDir), false)
      else c
    else if key in "haD4" then Control(Left, false)
    else if key in "jsB52" then Control(Down, false)
    else if key in "kwA8" then Control(Up, false)
    else if key in "ldC6" then Control(Right, false)
    else c
  }

  /** What any key can do: only space and `p` pause; a key that queues a
      direction also ends the pause; pausing twice changes nothing. */
  lemma KeyEffects(mouse: bool, d: Direction, c: Control, key: char)
    ensures var r := HandleKey(mouse, d, c, key);
      (r.paused && !c.paused ==> key == ' ' || key == 'p') &&
      (r.nextDir != c.nextDir ==> !r.paused) &&
      ((key == ' ' || key == 'p') ==> r == c.(paused := !c.paused))
    ensures (key == ' ' || key == 'p') ==> HandleKey(mouse, d, HandleKey(mouse, d, c, key), key) == c
  {
  }

  /** A wheel step always queues a real turn: never the current direction and
      never its reversal, so the next tick takes it. */
  lemma MouseTurnsAreTaken(d: Direction, c: Control, key: char)
    requires key == 'A' || key == 'B'
    ensures var r := HandleKey(true, d, c, key);
      r.nextDir != d && r.nextDir != Opposite(d) && !r.paused &&
      (key == 'A' ==> TurnLeft(r.nextDir) == d) && (key == 'B' ==> TurnRight(r.nextDir) == d)
  {
    TurnsAreInverse(d);
  }

  /** With the mouse protocol no key queues the reversal of the current
      direction, whatever was queued before. */
  lemma MouseNeverReverses(d: Direction, c: Control, key: char)
    requires c.nextDir != Opposite(d)
    ensures HandleKey(true, d, c, key).nextDir != Opposite(d)
  {
  }

  /** An arrow key arrives as `ESC [ X`: the first two are ignored and the
      letter picks the arrow's direction. */
  lemma ArrowSequences(d: Direction, c: Control)
    ensures var esc := HandleKey(false, d, HandleKey(false, d, c, 27 as char), '[');
      esc == c &&
      HandleKey(false, d, esc, 'A') == Control(Up, false) &&
      HandleKey(false, d, esc, 'B') == Control(Down, false) &&
      HandleKey(false, d, esc, 'C') == Control(Right, false) &&
      HandleKey(false, d, esc, 'D') == Control(Left, false)
  {
  }
}
