/** Messages as they are written into a buffer and read out of one. */
module OscMessage {
  import opened OscArguments
  import Lexer

  /** A buffer that is being filled: `lgth` bytes so far, described by `typetags`. */
  class Writer {
    const data: array<Byte>
    var lgth: nat
    var typetags: string

    predicate Valid()
      reads this
    {
      lgth <= data.Length
    }

    constructor (buffer: array<Byte>)
      ensures Valid() && data == buffer && lgth == 0 && typetags == ","
    {
      data, lgth, typetags := buffer, 0, ",";
    }

    /** The bytes are put behind those there are. */
    method Put(bytes: seq<Byte>)
      requires Valid() && lgth + |bytes| <= data.Length
      modifies this`lgth, data
      ensures Valid() && lgth == old(lgth) + |bytes| && data[..lgth] == old(data[..lgth]) + bytes
    {
      var i := 0;
      while i < |bytes|
        modifies data
        invariant i <= |bytes|
        invariant data[..lgth] == old(data[..lgth]) && forall k | 0 <= k < i :: data[lgth + k] == bytes[k]
      {
        data[lgth + i] := bytes[i];
        i := i + 1;
      }
      ghost var n := lgth;
      lgth := lgth + |bytes|;
      assert data[n..lgth] == bytes;
      assert data[..lgth] == data[..n] + data[n..lgth];
    }

    /** `setOSCString`: the string is padded first, a NUL at a time. */
    method SetString(s: string)
      requires Valid() && lgth + |StringBytes(s)| <= data.Length
      modifies this`lgth, data
      ensures Valid() && lgth == old(lgth) + |StringBytes(s)|
      ensures data[..lgth] == old(data[..lgth]) + StringBytes(s)
    {
      var str := Codes(s);
      var n := 4 - |s| % 4;
      var i := 0;
      while i < n
        invariant i <= n && str == Codes(s) + Zeros(i)
      {
        str := str + [0];
        i := i + 1;
      }
      Put(str);
    }

    /** `setOSCInt` and `setOSCLong`. */
    method SetInteger(i: int, long: bool)
      requires Valid() && lgth + Width(long) <= data.Length
      modifies this`lgth, data
      ensures Valid() && lgth == old(lgth) + Width(long)
      ensures data[..lgth] == old(data[..lgth]) + IntegerBytes(i, long)
    {
      Put(IntegerBytes(i, long));
    }

    /** `processArgs`: one argument after the other, ... */
    method ProcessArgs(args: seq<Arg>, long: bool)
      requires Valid() && AllSendable(args, long) && lgth + |Body(args, long)| <= data.Length
      modifies this`lgth, this`typetags, data
      ensures Valid() && lgth == old(lgth) + |Body(args, long)|
      ensures data[..lgth] == old(data[..lgth]) + Body(args, long)
      ensures typetags == old(typetags) + AllTags(args, long)
      decreases args, 1
    {
      ghost var front, tags := data[..lgth], typetags;
      ghost var done: seq<Byte>, doneTags := [], "";
      var i := 0;
      while i < |args|
        invariant i <= |args| && Valid() && AllSendable(args[i..], long)
        invariant data[..lgth] == front + done && typetags == tags + doneTags
        invariant done + Body(args[i..], long) == Body(args, long)
        invariant doneTags + AllTags(args[i..], long) == AllTags(args, long)
      {
        ghost var a := args[i];
        Next(args, i, long, done, doneTags);
        Placed(front, done, BodyOf(a, long));
        Assoc(tags, doneTags, TagsOf(a, long));
        assert lgth == |front + done|;
        ProcessArg(args[i], long);
        done, doneTags := done + BodyOf(a, long), doneTags + TagsOf(a, long);
        i := i + 1;
      }
    }

    /** ... and a list by its elements, in brackets. */
    method ProcessArg(a: Arg, long: bool)
      requires Valid() && Sendable(a, long) && lgth + |BodyOf(a, long)| <= data.Length
      modifies this`lgth, this`typetags, data
      ensures Valid() && lgth == old(lgth) + |BodyOf(a, long)|
      ensures data[..lgth] == old(data[..lgth]) + BodyOf(a, long)
      ensures typetags == old(typetags) + TagsOf(a, long)
      decreases a, 0
    {
      if a.Str? {
        SetString(a.s);
        typetags := typetags + "s";
      } else if a.Integer? {
        SetInteger(a.i, long);
        typetags := typetags + if long then "h" else "i";
      } else {
        typetags := typetags + "[";
        ProcessArgs(a.items, long);
        typetags := typetags + "]";
      }
    }
  }

  lemma Next(args: seq<Arg>, i: nat, long: bool, done: seq<Byte>, doneTags: string)
    requires i < |args| && AllSendable(args[i..], long)
    requires done + Body(args[i..], long) == Body(args, long)
    requires doneTags + AllTags(args[i..], long) == AllTags(args, long)
    ensures Sendable(args[i], long) && AllSendable(args[i + 1..], long)
    ensures (done + BodyOf(args[i], long)) + Body(args[i + 1..], long) == Body(args, long)
    ensures (doneTags + TagsOf(args[i], long)) + AllTags(args[i + 1..], long) == AllTags(args, long)
  {
    assert args[i..][0] == args[i] && args[i..][1..] == args[i + 1..];
    Placed(done, BodyOf(args[i], long), Body(args[i + 1..], long));
    Assoc(doneTags, TagsOf(args[i], long), AllTags(args[i + 1..], long));
  }

  lemma Placed(x: seq<Byte>, y: seq<Byte>, z: seq<Byte>)
    ensures (x + y) + z == x + (y + z)
  {
  }

  /** The position behind the tags before `i`, and the text of the call so far. */
  predicate DecodedTo(f: TagDecoder, tags: string, i: nat, text: string, pos: nat)
    requires i <= |tags|
  {
    Before(text, Decode(f, tags[i..], pos)) == Decode(f, tags, 0)
  }

  /** The loop of `send_scheme_call` over the tags, the comma before them being skipped. */
  method SendSchemeCall(tags: string, body: seq<Byte>) returns (call: Decoded)
    ensures call == Decode(InBody(body), tags, 0)
  {
    var f := InBody(body);
    var text, pos := "", 0;
    var i := 0;
    BeforeNothing(Decode(f, tags, 0));
    assert tags[0..] == tags;
    while i < |tags|
      invariant i <= |tags| && DecodedTo(f, tags, i, text, pos)
    {
      assert tags[i..][1..] == tags[i + 1..];
      var d := f(tags[i], pos);
      if d.Dropped? {
        return Dropped;
      }
      BeforeBefore(text, d.text, Decode(f, tags[i + 1..], d.pos));
      text, pos := text + d.text, d.pos;
      i := i + 1;
    }
    assert tags[i..] == "";
    assert text + "" == text;
    return Call(text, pos);
  }

  /** `get_message_length`: how long the body is that the tags describe. */
  method GetMessageLength(tags: string, body: seq<Byte>) returns (n: int)
    ensures n == if Decode(InBody(body), tags, 0).Call? then Decode(InBody(body), tags, 0).pos else -1
  {
    var f := InBody(body);
    var pos := 0;
    var i := 0;
    assert tags[0..] == tags;
    while i < |tags|
      invariant i <= |tags|
      invariant Decode(f, tags, 0).Call? == Decode(f, tags[i..], pos).Call?
      invariant Decode(f, tags, 0).Call? ==> Decode(f, tags, 0).pos == Decode(f, tags[i..], pos).pos
    {
      assert tags[i..][1..] == tags[i + 1..];
      var d := f(tags[i], pos);
      if d.Dropped? {
        return -1;
      }
      pos := d.pos;
      i := i + 1;
    }
    n := pos;
  }

  /** Sending and receiving: what `ProcessArgs` writes, `SendSchemeCall` turns into a call with the same
      arguments, and its length is that of the body. */
  method RoundTrip(args: seq<Arg>, long: bool, buffer: array<Byte>) returns (call: Decoded, n: int)
    requires AllSendable(args, long) && |Body(args, long)| <= buffer.Length
    modifies buffer
    ensures call == Call(AllCallTexts(args), |Body(args, long)|) && n == |Body(args, long)|
  {
    var w := new Writer(buffer);
    w.ProcessArgs(args, long);
    MessageDecodes(args, long);
    assert w.data[..w.lgth] == Body(args, long);
    assert w.typetags[1..] == AllTags(args, long);
    call := SendSchemeCall(w.typetags[1..], w.data[..w.lgth]);
    n := GetMessageLength(w.typetags[1..], w.data[..w.lgth]);
  }
}
