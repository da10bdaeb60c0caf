/** The input the scenes read from the window's event queue. */
module Input {
  /**
   * A pressed key as the text-entry scenes distinguish it: Return,
   * Backspace, a key that types the character `c` (with pygame's name for
   * the key, which is what gets logged), or a key that types nothing.
   */
  datatype Key = Return | Backspace | Char(name: string, c: char) | Other

  /**
   * One polled event. A key press carries the clock reading (milliseconds
   * since start-up) when it is handled and the wall-clock time stamp the log
   * entry gets; Quit is the window-close request; NotKey is any other event.
   */
  datatype Event = KeyDown(key: Key, ticks: int, stamp: string) | Quit | NotKey

  /** The events polled on one frame. */
  type Batch = seq<Event>
}
