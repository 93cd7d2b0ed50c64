/** The output stream of the operand printers: text, and the formatting state of numbers. */
module Streams {
  import opened Common
  import opened Numerals

  class OStream {
    var text: string
    var flags: Flags

    constructor ()
      ensures text == "" && flags == PLAIN
    {
      text, flags := "", PLAIN;
    }

    method Put(s: string)
      modifies this`text
      ensures text == old(text) + s
    {
      text := text + s;
    }

    method PutInt(n: int)
      modifies this`text
      ensures text == old(text) + FormatInt(flags, n)
    {
      text := text + FormatInt(flags, n);
    }

    method SetHex()
      modifies this`flags
      ensures flags == old(flags).(hex := true)
    {
      flags := flags.(hex := true);
    }

    method SetShowBase()
      modifies this`flags
      ensures flags == old(flags).(showbase := true)
    {
      flags := flags.(showbase := true);
    }

    method SetFlags(f: Flags)
      modifies this`flags
      ensures flags == f
    {
      flags := f;
    }
  }

  method PrintAddend(os: OStream, n: int, first: bool)
    requires os.flags == PLAIN
    modifies os`text
    ensures os.text == old(os.text) + Addend(n, first)
  {
    if n < 0 || first {
      os.PutInt(n);
      return;
    }
    if n == 0 {
      return;
    }
    os.Put("+");
    os.PutInt(n);
  }
}
