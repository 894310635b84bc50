module Wrappers {
  datatype Option<+T> = None | Some(value: T)
}

/**
 * PHP's output buffering (`ob_start`, `echo`, `ob_get_clean`) made explicit.
 * In PHP the buffer is process-wide state; here it is one object that the
 * widget's `Begin` and `Render` are handed, so every clone of a widget sees
 * the same buffer, as in PHP. Open levels nest; the innermost is last.
 */
module Buffers {
  import opened Wrappers

  class OutputBuffer {
    /** The open buffering levels, outermost first. */
    var levels: seq<string>
    /** Output that reached the client because no level was open. */
    var sent: string

    constructor ()
      ensures levels == [] && sent == ""
    {
      levels := [];
      sent := "";
    }

    /** `ob_start()`: open a new, empty, innermost level. */
    method Start()
      modifies this
      ensures levels == old(levels) + [""] && sent == old(sent)
    {
      levels := levels + [""];
    }

    /** `echo s`: append to the innermost level, or send when none is open. */
    method Write(s: string)
      modifies this
      ensures old(levels) == [] ==> levels == [] && sent == old(sent) + s
      ensures old(levels) != [] ==>
        && sent == old(sent)
        && levels == old(levels)[..|old(levels)| - 1] + [old(levels)[|old(levels)| - 1] + s]
    {
      if levels == [] {
        sent := sent + s;
      } else {
        levels := levels[..|levels| - 1] + [levels[|levels| - 1] + s];
      }
    }

    /**
     * `ob_get_clean()`: the innermost level's contents, closing that level;
     * `false` (here `None`) when no level is open, and then nothing changes.
     */
    method GetClean() returns (contents: Option<string>)
      modifies this
      ensures sent == old(sent)
      ensures old(levels) == [] ==> contents == None && levels == []
      ensures old(levels) != [] ==>
        && contents == Some(old(levels)[|old(levels)| - 1])
        && levels == old(levels)[..|old(levels)| - 1]
    {
      if levels == [] {
        contents := None;
      } else {
        contents := Some(levels[|levels| - 1]);
        levels := levels[..|levels| - 1];
      }
    }
  }
}
