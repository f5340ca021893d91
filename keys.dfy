/** Key decoding: the bytes a Windows console delivers through getch, turned
    into the key events the line editor consumes. */
module Keys {

  newtype byte = b: int | 0 <= b < 256

  datatype Option<T> = None | Some(value: T)

  /** getch delivers an arrow key as this prefix byte followed by a scan code. */
  const ArrowPrefix: byte := 224
  const UpCode: byte := 72
  const DownCode: byte := 80

  const CarriageReturn: byte := 13
  const LineFeed: byte := 10
  const BackspaceByte: byte := 8

  datatype Direction = Up | Down

  /** The signed step of a direction (UP = 1, DOWN = -1); navigation moves
      the history index by minus this amount. */
  function Offset(d: Direction): int
  {
    match d
    case Up => 1
    case Down => -1
  }

  datatype Key = Arrow(dir: Direction) | EnterKey | BackspaceKey | CharKey(c: char)

  /** A byte that does not start an arrow sequence, decoded on its own as
      UTF-8: a byte below 128 is one character, any other byte fails to
      decode and is dropped.  Carriage return (and line feed) mean Enter,
      the backspace character means Backspace, every other character is
      typed. */
  function DecodeByte(b: byte): (r: Option<Key>)
    ensures r.None? <==> b >= 128
    ensures r == Some(EnterKey) <==> b == CarriageReturn || b == LineFeed
    ensures r == Some(BackspaceKey) <==> b == BackspaceByte
    ensures r.Some? ==> !r.value.Arrow? && Typable(r.value)
    ensures r.Some? && r.value.CharKey? ==> r.value.c as int == b as int
  {
    if b >= 128 then None
    else if b == CarriageReturn || b == LineFeed then Some(EnterKey)
    else if b == BackspaceByte then Some(BackspaceKey)
    else Some(CharKey(b as int as char))
  }

  /** The scan code that follows the arrow prefix: Up, Down, or nothing. */
  function DecodeArrow(code: byte): seq<Key>
  {
    if code == UpCode then [Arrow(Up)]
    else if code == DownCode then [Arrow(Down)]
    else []
  }

  /** The key events a byte stream produces, in order.  A prefix byte at the
      very end of the stream has not received its scan code yet and
      produces nothing. */
  function Decode(bytes: seq<byte>): (keys: seq<Key>)
    ensures |keys| <= |bytes|
    decreases |bytes|
  {
    if bytes == [] then []
    else if bytes[0] == ArrowPrefix then
      if |bytes| == 1 then []
      else DecodeArrow(bytes[1]) + Decode(bytes[2..])
    else
      (match DecodeByte(bytes[0])
       case Some(k) => [k]
       case None => []) + Decode(bytes[1..])
  }

  /** The events decoding can produce: a typed character is always a
      single-byte character other than the ones that mean Enter or
      Backspace. */
  predicate Typable(k: Key)
  {
    k.CharKey? ==> k.c as int < 128 && k.c != '\r' && k.c != '\n' && k.c != '\U{8}'
  }

  /** The bytes a keyboard sends for one key. */
  function EncodeKey(k: Key): seq<byte>
    requires Typable(k)
  {
    match k
    case Arrow(Up) => [ArrowPrefix, UpCode]
    case Arrow(Down) => [ArrowPrefix, DownCode]
    case EnterKey => [CarriageReturn]
    case BackspaceKey => [BackspaceByte]
    case CharKey(c) => [c as int as byte]
  }

  function Encode(keys: seq<Key>): seq<byte>
    requires forall i :: 0 <= i < |keys| ==> Typable(keys[i])
  {
    if keys == [] then [] else EncodeKey(keys[0]) + Encode(keys[1..])
  }

  /** Every event decoding produces is one a keyboard can send. */
  lemma {:induction false} DecodeTypable(bytes: seq<byte>)
    ensures forall i :: 0 <= i < |Decode(bytes)| ==> Typable(Decode(bytes)[i])
    decreases |bytes|
  {
    if bytes == [] {
    } else if bytes[0] == ArrowPrefix {
      if |bytes| > 1 {
        DecodeTypable(bytes[2..]);
      }
    } else {
      DecodeTypable(bytes[1..]);
    }
  }

  /** Decoding the bytes of one key yields that key, followed by whatever
      the rest of the stream decodes to. */
  lemma DecodeKeyThen(k: Key, rest: seq<byte>)
    requires Typable(k)
    ensures Decode(EncodeKey(k) + rest) == [k] + Decode(rest)
  {
    var bytes := EncodeKey(k) + rest;
    match k
    case Arrow(_) =>
      assert bytes[2..] == rest;
    case CharKey(c) =>
      assert bytes[1..] == rest;
      assert bytes[0] as int as char == c;
    case _ =>
      assert bytes[1..] == rest;
  }

  /** A line feed on its own is Enter too, like a carriage return. */
  lemma DecodeLineFeed(rest: seq<byte>)
    ensures Decode([LineFeed] + rest) == [EnterKey] + Decode(rest)
  {
    assert ([LineFeed] + rest)[1..] == rest;
  }

  /** Round trip: the bytes of a key sequence decode to exactly that
      sequence. */
  lemma {:induction false} DecodeEncode(keys: seq<Key>)
    requires forall i :: 0 <= i < |keys| ==> Typable(keys[i])
    ensures Decode(Encode(keys)) == keys
  {
    if keys != [] {
      DecodeKeyThen(keys[0], Encode(keys[1..]));
      DecodeEncode(keys[1..]);
    }
  }

  /** The bytes that produce no event: a byte that is not valid UTF-8 on its
      own, and the arrow prefix followed by a scan code other than Up or
      Down.  Nothing is produced for them and decoding carries on
      after them. */
  lemma DecodeIgnored(b: byte, code: byte, rest: seq<byte>)
    ensures b >= 128 && b != ArrowPrefix ==> Decode([b] + rest) == Decode(rest)
    ensures code != UpCode && code != DownCode ==> Decode([ArrowPrefix, code] + rest) == Decode(rest)
  {
    assert ([b] + rest)[1..] == rest;
    assert ([ArrowPrefix, code] + rest)[2..] == rest;
  }
}
