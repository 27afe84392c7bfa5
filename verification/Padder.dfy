/** Padding one field: scoped_padder writes spaces when it is built and when it is destroyed. */
module Padder {
  import opened Options

  datatype Side = Left | Right | Center

  datatype Padding = Padding(width: nat, side: Side, truncate: bool, enabled: bool)

  const NO_PADDING := Padding(0, Left, false, false)
  const MAX_WIDTH := 64

  function Spaces(n: nat): (s: string)
    ensures |s| == n
  {
    seq(n, _ => ' ')
  }

  /** What a padded field should be: the text centred or against one side of width columns,
      a text too long cut at its end when asked. */
  function Field(body: string, pad: Padding): string {
    if |body| >= pad.width then
      if pad.truncate then body[..pad.width] else body
    else
      var gap := pad.width - |body|;
      match pad.side
      case Left => Spaces(gap) + body
      case Right => body + Spaces(gap)
      case Center => Spaces(gap / 2) + body + Spaces(gap - gap / 2)
  }

  /** The spaces written before a text announced as n characters long, and after it. */
  function Before(n: nat, pad: Padding): string {
    if n >= pad.width then ""
    else match pad.side
      case Left => Spaces(pad.width - n)
      case Right => ""
      case Center => Spaces((pad.width - n) / 2)
  }

  function After(n: nat, pad: Padding): string {
    if n >= pad.width then ""
    else match pad.side
      case Left => ""
      case Right => Spaces(pad.width - n)
      case Center => Spaces(pad.width - n - (pad.width - n) / 2)
  }

  /** The buffer after the field: the text announced as n characters long with its spaces, and
      then, when it is to be cut, shorter by as much as the announced length exceeds the
      width. None is a resize to less than nothing, which asks for nearly 2^64 characters. */
  function Announced(buffer: string, n: nat, body: string, pad: Padding): Option<string> {
    if n <= pad.width || !pad.truncate then Some(buffer + (Before(n, pad) + body + After(n, pad)))
    else if |buffer| + |body| < n - pad.width then None
    else Some((buffer + body)[..|buffer| + |body| - (n - pad.width)])
  }

  function Gap(n: nat, width: nat): nat { if n < width then width - n else 0 }

  /** A field comes out right, behind an untouched buffer, exactly when the announced length is
      right, or when wrong and right length leave the same gap and nothing is to be cut. */
  lemma RightExactlyWhen(buffer: string, n: nat, body: string, pad: Padding)
    ensures Announced(buffer, n, body, pad) == Some(buffer + Field(body, pad))
       <==> if pad.truncate then n == |body| else Gap(n, pad.width) == Gap(|body|, pad.width)
  {
    FieldLength(body, pad);
    var got := Announced(buffer, n, body, pad);
    if n == |body| && pad.truncate && n > pad.width {
      assert (buffer + body)[..|buffer| + pad.width] == buffer + body[..pad.width];
    } else if Gap(n, pad.width) == Gap(|body|, pad.width) && !(pad.truncate && (n > pad.width || |body| > pad.width)) {
      AnnouncedField(n, body, pad);
    }
    if got.Some? {
      AnnouncedLength(buffer, n, body, pad);
    }
  }

  lemma FieldLength(body: string, pad: Padding)
    ensures |Field(body, pad)| == if pad.truncate || |body| < pad.width then pad.width else |body|
  {
  }

  lemma AnnouncedLength(buffer: string, n: nat, body: string, pad: Padding)
    requires Announced(buffer, n, body, pad).Some?
    ensures |Announced(buffer, n, body, pad).value|
         == |buffer| + |body| + (if pad.truncate then pad.width - n else Gap(n, pad.width))
  {
  }

  lemma AnnouncedField(n: nat, body: string, pad: Padding)
    requires Gap(n, pad.width) == Gap(|body|, pad.width) && (pad.truncate ==> |body| <= pad.width)
    ensures Before(n, pad) + body + After(n, pad) == Field(body, pad)
  {
  }

  /** What a caller can check: a text announced longer than it is comes out right exactly when
      it fills its width by itself and is not to be cut. */
  lemma OverAnnounced(buffer: string, n: nat, body: string, pad: Padding)
    requires n > |body|
    ensures Announced(buffer, n, body, pad) == Some(buffer + Field(body, pad)) <==> !pad.truncate && pad.width <= |body|
  {
    RightExactlyWhen(buffer, n, body, pad);
  }

  /** %D announces ten characters and writes eight: two columns short in a width of ten, cut
      to one character instead of three, and with a width of one it cuts into the text before
      it, or underflows when there is none. */
  lemma ShortDate(buffer: string)
    ensures Announced(buffer, 10, "01/02/70", Padding(10, Left, false, true)) == Some(buffer + "01/02/70")
    ensures Field("01/02/70", Padding(10, Left, false, true)) == "  01/02/70"
    ensures Announced(buffer, 10, "01/02/70", Padding(3, Left, true, true)) == Some(buffer + "0")
    ensures Field("01/02/70", Padding(3, Left, true, true)) == "01/"
    ensures |buffer| >= 1 ==>
              Announced(buffer, 10, "01/02/70", Padding(1, Left, true, true)) == Some(buffer[..|buffer| - 1])
    ensures Announced("", 10, "01/02/70", Padding(1, Left, true, true)) == None
  {
    var body := "01/02/70";
    assert "" + body + "" == body;
    assert (buffer + body)[..|buffer| + 1] == buffer + "0";
    if |buffer| >= 1 {
      assert (buffer + body)[..|buffer| - 1] == buffer[..|buffer| - 1];
    }
    assert Spaces(2) == "  ";
  }

  /** A field is never narrower than its width, exactly as wide when it may be cut, and a text
      that fits stands in it unbroken between spaces, half of them (rounded down) before it when centred. */
  lemma FieldShape(body: string, pad: Padding)
    ensures |Field(body, pad)| >= pad.width
    ensures |Field(body, pad)| > pad.width ==> !pad.truncate && Field(body, pad) == body
    ensures |body| <= pad.width ==>
      var before := match pad.side case Left => pad.width - |body| case Right => 0 case Center => (pad.width - |body|) / 2;
      && Field(body, pad)[before..before + |body|] == body
      && (forall i :: 0 <= i < before || before + |body| <= i < pad.width ==> Field(body, pad)[i] == ' ')
    ensures pad.truncate && |body| > pad.width ==> Field(body, pad) < body
  {
    FieldLength(body, pad);
    if |body| <= pad.width { FieldFits(body, pad); }
  }

  lemma FieldFits(body: string, pad: Padding)
    requires |body| <= pad.width
    ensures var before := match pad.side case Left => pad.width - |body| case Right => 0 case Center => (pad.width - |body|) / 2;
            Field(body, pad) == Spaces(before) + body + Spaces(pad.width - |body| - before)
  {
  }

  class MemoryBuffer {
    var data: string

    constructor ()
      ensures data == ""
    {
      data := "";
    }

    method Append(s: string)
      modifies this
      ensures data == old(data) + s
    {
      data := data + s;
    }

    method AppendBoth(s: string, t: string)
      modifies this
      ensures data == old(data) + (s + t)
    {
      Append(s);
      Append(t);
    }

    /** A resize to at most what is there; a negative size, as a size_t, cannot be allocated. */
    method Resize(n: int) returns (ok: bool)
      requires n <= |data|
      modifies this
      ensures ok <==> n >= 0
      ensures data == if ok then old(data)[..n] else old(data)
    {
      ok := n >= 0;
      if ok {
        data := data[..n];
      }
    }
  }

  class ScopedPadder {
    const padinfo: Padding
    const dest: MemoryBuffer
    var remaining: int

    /** The spaces before the text. */
    constructor (wrapped: nat, padinfo: Padding, dest: MemoryBuffer)
      requires padinfo.width <= MAX_WIDTH
      modifies dest
      ensures this.padinfo == padinfo && this.dest == dest
      ensures dest.data == old(dest.data) + Before(wrapped, padinfo)
      ensures remaining == if wrapped >= padinfo.width || padinfo.side.Right? then padinfo.width - wrapped
                           else if padinfo.side.Left? then 0
                           else padinfo.width - wrapped - (padinfo.width - wrapped) / 2
    {
      this.padinfo := padinfo;
      this.dest := dest;
      this.remaining := padinfo.width - wrapped;
      new;
      if remaining <= 0 {
        return;
      }
      if padinfo.side == Left {
        PadIt(remaining);
        remaining := 0;
      } else if padinfo.side == Center {
        var halfPad := remaining / 2;
        var reminder := remaining % 2;
        PadIt(halfPad);
        remaining := halfPad + reminder;
      }
    }

    /** The spaces after the text, or the cut; not ok when the cut underflows. */
    method Destroy() returns (ok: bool)
      requires remaining <= MAX_WIDTH
      modifies dest
      ensures ok <==> !(remaining < 0 && padinfo.truncate && |old(dest.data)| + remaining < 0)
      ensures dest.data == if remaining >= 0 then old(dest.data) + Spaces(remaining)
                           else if padinfo.truncate && ok then old(dest.data)[..|old(dest.data)| + remaining]
                           else old(dest.data)
    {
      ok := true;
      if remaining >= 0 {
        PadIt(remaining);
      } else if padinfo.truncate {
        ok := dest.Resize(|dest.data| + remaining);
      }
    }

    /** A stretch of the 64 stored spaces. */
    method PadIt(count: nat)
      requires count <= MAX_WIDTH
      modifies dest
      ensures dest.data == old(dest.data) + Spaces(count)
    {
      var spaces := Spaces(64);
      dest.Append(spaces[..count]);
    }
  }

  /** A formatter's body between the padder's construction and its destruction. */
  method WriteField(n: nat, body: string, pad: Padding, dest: MemoryBuffer) returns (ok: bool)
    requires pad.width <= MAX_WIDTH
    modifies dest
    ensures ok <==> Announced(old(dest.data), n, body, pad).Some?
    ensures ok ==> Announced(old(dest.data), n, body, pad) == Some(dest.data)
    ensures n == |body| ==> ok && dest.data == old(dest.data) + Field(body, pad)
  {
    var p := new ScopedPadder(n, pad, dest);
    dest.Append(body);
    ok := p.Destroy();
    RightExactlyWhen(old(dest.data), n, body, pad);
    if n <= pad.width || !pad.truncate {
      assert dest.data == old(dest.data) + (Before(n, pad) + body + After(n, pad));
    } else {
      assert old(dest.data) + "" + body == old(dest.data) + body;
    }
  }
}
