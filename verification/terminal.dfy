/** The terminal line-discipline snapshot and the "cbreak, no echo, keep
    signals" transform applied to it. Field layout and flag values are
    those of Linux, where every flag word is 32 bits wide. */
module Terminal {

  type Flags = bv32

  const ISIG: Flags := 0x1
  const ICANON: Flags := 0x2
  const ECHO: Flags := 0x8

  /** The `Lflag` bits the transform leaves alone. */
  const Untouched: Flags := !(ICANON | ECHO | ISIG)

  /** A snapshot of the terminal attributes (`unix.Termios`). */
  datatype Termios = Termios(
    iflag: Flags,
    oflag: Flags,
    cflag: Flags,
    lflag: Flags,
    line: bv8,
    cc: seq<bv8>,
    ispeed: bv32,
    ospeed: bv32)

  /** Alternate screen on, cursor hidden. */
  const AltScreenEnter: string := "\U{1B}[?1049h\U{1B}[?25l"
  /** Cursor shown, alternate screen off. */
  const AltScreenLeave: string := "\U{1B}[?25h\U{1B}[?1049l"

  /** The local-mode word used while watching: canonical input and echo
      cleared, signal generation set, every other bit as it was. Together
      the four masks cover the whole word, so they determine it. */
  function CBreakFlags(lflag: Flags): (r: Flags)
    ensures r & ICANON == 0
    ensures r & ECHO == 0
    ensures r & ISIG == ISIG
    ensures r & Untouched == lflag & Untouched
  {
    (lflag & !(ICANON | ECHO)) | ISIG
  }

  /** The four mask facts pin the local-mode word down: any word that has
      them is the transformed one. */
  lemma CBreakFlagsUnique(lflag: Flags, r: Flags)
    requires r & ICANON == 0 && r & ECHO == 0 && r & ISIG == ISIG
    requires r & Untouched == lflag & Untouched
    ensures r == CBreakFlags(lflag)
  {
  }

  /** The attributes used while watching: only the local-mode word changes. */
  function CBreak(t: Termios): (r: Termios)
    ensures r.lflag & (ICANON | ECHO) == 0
    ensures r.lflag & ISIG == ISIG
    ensures r.lflag & Untouched == t.lflag & Untouched
    ensures r.(lflag := t.lflag) == t
  {
    t.(lflag := CBreakFlags(t.lflag))
  }

  /** Snapshots that differ from the old one only in the local-mode word
      and carry its mask facts are the transformed snapshot. */
  lemma CBreakUnique(t: Termios, r: Termios)
    requires r.lflag & (ICANON | ECHO) == 0
    requires r.lflag & ISIG == ISIG
    requires r.lflag & Untouched == t.lflag & Untouched
    requires r.(lflag := t.lflag) == t
    ensures r == CBreak(t)
  {
  }

  /** Applying the transform to attributes already in that mode changes nothing. */
  lemma CBreakIdempotent(t: Termios)
    ensures CBreak(CBreak(t)) == CBreak(t)
  {
  }
}
