/**
 The iButton key file (applications/ibutton/ibutton-app.cpp and ibutton-key.cpp): the text that saving a
 key writes, on a card that may refuse or fill up, and what loading makes of any text.
 */
module KeyFile {

  type Byte = x: nat | x < 256

  const DATA_SIZE := 8

  datatype KeyType = Dallas | Cyfral | Metakom

  function TypeDataSize(t: KeyType): nat {
    match t case Cyfral => 2 case Metakom => 4 case Dallas => 8
  }

  function TypeChar(t: KeyType): char {
    match t case Cyfral => 'C' case Dallas => 'D' case Metakom => 'M'
  }

  // ----- Printing

  function HexDigit(n: nat): char
    requires n < 16
  {
    "0123456789ABCDEF"[n]
  }

  /** `" %02X"`. */
  function ByteText(b: Byte): string {
    [' ', HexDigit(b / 16), HexDigit(b % 16)]
  }

  function DataText(data: seq<Byte>): (r: string)
    ensures |r| == 3 * |data|
  {
    if data == [] then [] else DataText(data[..|data| - 1]) + ByteText(data[|data| - 1])
  }

  // ----- Reading numbers

  predicate IsSpace(c: char) {
    c == ' ' || '\t' <= c <= '\r'
  }

  /** The value of a hexadecimal digit, 16 for any other character. */
  function DigitValue(c: char): nat {
    if '0' <= c <= '9' then c as nat - '0' as nat
    else if 'a' <= c <= 'f' then c as nat - 'a' as nat + 10
    else if 'A' <= c <= 'F' then c as nat - 'A' as nat + 10
    else 16
  }

  function SkipSpaces(s: string): string {
    if s != [] && IsSpace(s[0]) then SkipSpaces(s[1..]) else s
  }

  function Digits(s: string, value: int): int {
    if s == [] || DigitValue(s[0]) == 16 then value else Digits(s[1..], 16 * value + DigitValue(s[0]))
  }

  function SkipPrefix(s: string): string {
    if |s| > 2 && s[0] == '0' && (s[1] == 'x' || s[1] == 'X') && DigitValue(s[2]) < 16 then s[2..] else s
  }

  /** `strtol(s, NULL, 16)` on a short string, up to its terminating zero. */
  function ParseHex(s: string): int {
    var t := SkipSpaces(s);
    if t != [] && t[0] == '-' then 0 - Digits(SkipPrefix(t[1..]), 0)
    else if t != [] && t[0] == '+' then Digits(SkipPrefix(t[1..]), 0)
    else Digits(SkipPrefix(t), 0)
  }

  /** The assignment of the result to a byte. */
  function ParseByte(s: string): Byte {
    ParseHex(s) % 256
  }

  function HeaderType(c: char): (bool, KeyType) {
    if c == 'C' then (true, Cyfral)
    else if c == 'M' then (true, Metakom)
    else if c == 'D' then (true, Dallas)
    else (false, Cyfral)
  }

  /** The bytes read from a text of three characters each: one skipped, two parsed. */
  function ParsedData(text: string, n: nat): (r: seq<Byte>)
    requires 3 * n <= |text|
    ensures |r| == n
  {
    if n == 0 then [] else ParsedData(text, n - 1) + [ParseByte(text[3 * n - 2..3 * n])]
  }

  lemma ParsedNext(text: string, n: nat)
    requires 4 + 3 * n <= |text|
    ensures ParsedData(text[1..], n + 1) == ParsedData(text[1..], n) + [ParseByte(text[3 * n + 2..3 * n + 4])]
  {
    assert text[1..][3 * (n + 1) - 2..3 * (n + 1)] == text[3 * n + 2..3 * n + 4];
  }

  function Zeros(n: nat): (r: seq<Byte>)
    ensures |r| == n
  {
    seq(n, _ => 0)
  }

  lemma BytePut(data: seq<Byte>, b: Byte, room: nat)
    requires room > 0
    ensures (data + Zeros(room))[|data| := b] == data + [b] + Zeros(room - 1)
  {
  }

  /** Loading accepts a text iff it has a known header and three characters for each byte of that type. */
  predicate Loads(text: string) {
    text != [] && HeaderType(text[0]).0 && |text| >= 1 + 3 * TypeDataSize(HeaderType(text[0]).1)
  }

  /** The file of a key: its letter and the bytes of its type. */
  function SavedText(t: KeyType, kept: seq<Byte>): (r: string)
    ensures |r| == 1 + 3 * |kept|
  {
    [TypeChar(t)] + DataText(kept)
  }

  lemma {:induction false} TextOfByte(data: seq<Byte>, i: nat)
    requires i < |data|
    ensures DataText(data)[3 * i..3 * i + 3] == ByteText(data[i])
  {
    if i < |data| - 1 {
      TextOfByte(data[..|data| - 1], i);
      assert DataText(data)[3 * i..3 * i + 3] == DataText(data[..|data| - 1])[3 * i..3 * i + 3];
    }
  }

  lemma NextByteText(t: KeyType, kept: seq<Byte>, i: nat)
    requires i < |kept|
    ensures SavedText(t, kept)[1 + 3 * i..4 + 3 * i] == ByteText(kept[i])
    ensures SavedText(t, kept)[..1 + 3 * i] + ByteText(kept[i]) == SavedText(t, kept)[..4 + 3 * i]
  {
    TextOfByte(kept, i);
    assert SavedText(t, kept)[1 + 3 * i..4 + 3 * i] == DataText(kept)[3 * i..3 * i + 3];
  }

  lemma PartOfByte(full: string, before: string, chunk: string, i: nat)
    requires 4 + 3 * i <= |full| && before == full[..1 + 3 * i] && |chunk| == 3
    requires before + chunk == full[..4 + 3 * i]
    ensures forall n | 0 <= n <= 3 :: before + chunk[..n] == full[..1 + 3 * i + n]
  {
    forall n | 0 <= n <= 3 ensures before + chunk[..n] == full[..1 + 3 * i + n] {
      assert before + chunk[..n] == (before + chunk)[..1 + 3 * i + n];
    }
  }

  /** What the card answers to a write: how many characters it takes at most, and whether it reports an error. */
  datatype Answer = Answer(room: nat, failed: bool)

  /** The writes of a save: the letter, then each byte. */
  function ChunkSize(k: nat): nat {
    if k == 0 then 1 else 3
  }

  function ChunkStart(k: nat): nat {
    if k == 0 then 0 else 3 * k - 2
  }

  predicate Stored(answers: nat -> Answer, k: nat) {
    !answers(k).failed && answers(k).room >= ChunkSize(k)
  }

  /** The first write that goes wrong is the `k`-th; the file ends with what it stored. */
  ghost predicate StopsAt(answers: nat -> Answer, full: string, text: string, k: nat)
    requires ChunkStart(k) + ChunkSize(k) <= |full|
  {
    && !Stored(answers, k) && (forall j | 0 <= j < k :: Stored(answers, j))
    && text == full[..ChunkStart(k) + if answers(k).room < ChunkSize(k) then answers(k).room else ChunkSize(k)]
  }

  /** `file.write`: an error or a short count is a failure; what was stored stays in the file. */
  method Write(text: string, chunk: string, answer: Answer) returns (ok: bool, written: string)
    ensures ok <==> !answer.failed && answer.room >= |chunk|
    ensures written == text + chunk[..if answer.room < |chunk| then answer.room else |chunk|]
  {
    var count := if answer.room < |chunk| then answer.room else |chunk|;
    written := text + chunk[..count];
    ok := !answer.failed && count == |chunk|;
  }

  class Key {
    var data: array<Byte>
    var keyType: KeyType

    ghost predicate Valid()
      reads this
    {
      data.Length == DATA_SIZE
    }

    constructor ()
      ensures Valid() && fresh(data) && keyType == Dallas && data[..] == Zeros(DATA_SIZE)
    {
      data := new Byte[DATA_SIZE](_ => 0);
      keyType := Dallas;
    }

    method SetData(bytes: seq<Byte>)
      requires Valid() && 0 < |bytes| <= DATA_SIZE
      modifies data
      ensures data[..] == bytes + Zeros(DATA_SIZE - |bytes|)
    {
      forall i | 0 <= i < data.Length {
        data[i] := 0;
      }
      var i := 0;
      while i < |bytes|
        invariant 0 <= i <= |bytes|
        invariant data[..] == bytes[..i] + Zeros(DATA_SIZE - i)
      {
        data[i] := bytes[i];
        i := i + 1;
      }
    }

    /**
     Saving to a card on which the file can be created or not, and which answers each write as it likes. `text`
     is what the file holds afterwards.
     */
    method Save(created: bool, answers: nat -> Answer) returns (ok: bool, text: string)
      requires Valid()
      ensures
        var size, full := TypeDataSize(keyType), SavedText(keyType, data[..TypeDataSize(keyType)]);
        && (ok <==> created && forall k | 0 <= k <= size :: Stored(answers, k))
        && (ok ==> text == full)
        && (!created ==> text == [])
        && (created && !ok ==> exists k: nat | k <= size :: StopsAt(answers, full, text, k))
    {
      text := [];
      if !created {
        return false, text;
      }
      ghost var full := SavedText(keyType, data[..TypeDataSize(keyType)]);
      ok, text := Write(text, [TypeChar(keyType)], answers(0));
      if !ok {
        assert StopsAt(answers, full, text, 0);
        return;
      }
      var i := 0;
      while i < TypeDataSize(keyType)
        invariant 0 <= i <= TypeDataSize(keyType)
        invariant forall j | 0 <= j <= i :: Stored(answers, j)
        invariant text == full[..1 + 3 * i]
      {
        NextByteText(keyType, data[..TypeDataSize(keyType)], i);
        ghost var before := text;
        ok, text := Write(text, ByteText(data[i]), answers(i + 1));
        if !ok {
          PartOfByte(full, before, ByteText(data[i]), i);
          assert StopsAt(answers, full, text, i + 1);
          return;
        }
        i := i + 1;
      }
      return true, text;
    }

    /** The reading loop: for each byte a character to skip and two to parse. */
    method ReadData(text: string, size: nat) returns (ok: bool, keyData: seq<Byte>)
      requires text != [] && size <= DATA_SIZE
      ensures ok == (|text| >= 1 + 3 * size)
      ensures ok ==> keyData == ParsedData(text[1..], size) + Zeros(DATA_SIZE - size)
    {
      keyData := Zeros(DATA_SIZE);
      var at := 1;
      var i := 0;
      while i < size
        invariant 0 <= i <= size && at == 1 + 3 * i <= |text|
        invariant keyData == ParsedData(text[1..], i) + Zeros(DATA_SIZE - i)
      {
        if at + 1 > |text| {
          return false, keyData;
        }
        at := at + 1;
        if at + 2 > |text| {
          return false, keyData;
        }
        ParsedNext(text, i);
        BytePut(ParsedData(text[1..], i), ParseByte(text[at..at + 2]), DATA_SIZE - i);
        keyData := keyData[i := ParseByte(text[at..at + 2])];
        at := at + 2;
        i := i + 1;
      }
      ok := true;
    }

    /**
     Loading a text into the key. A text that is cut short after a good header is refused, but the key has
     taken the type of the header by then.
     */
    method Load(text: string) returns (ok: bool)
      requires Valid()
      modifies this`keyType, data
      ensures ok == Loads(text)
      ensures ok ==>
        && keyType == HeaderType(text[0]).1
        && data[..] == ParsedData(text[1..], TypeDataSize(keyType)) + Zeros(DATA_SIZE - TypeDataSize(keyType))
      ensures !ok ==> data[..] == old(data[..])
      ensures !ok ==>
        keyType == (if text != [] && HeaderType(text[0]).0 then HeaderType(text[0]).1 else old(keyType))
      ensures !ok ==>
        (keyType == old(keyType) <==>
          text == [] || !HeaderType(text[0]).0 || HeaderType(text[0]).1 == old(keyType))
    {
      if text == [] {
        return false;
      }
      var (known, header) := HeaderType(text[0]);
      if !known {
        return false;
      }
      keyType := header;
      var keyData;
      ok, keyData := ReadData(text, TypeDataSize(keyType));
      if ok {
        SetData(keyData);
        assert keyData + Zeros(0) == keyData;
      }
    }
  }

  /** The refused text that changes a key: the letter of another type and nothing after it. */
  method CutShortAfterHeader() returns (before: KeyType, ok: bool, after: KeyType)
    ensures before == Dallas && !ok && after == Cyfral
  {
    var key := new Key();
    before := key.keyType;
    ok := key.Load("C");
    after := key.keyType;
  }

  // ----- Round trip

  lemma ByteSurvives(b: Byte)
    ensures ParseByte(ByteText(b)[1..]) == b
  {
    var high, low := HexDigit(b / 16), HexDigit(b % 16);
    DigitSurvives(b / 16);
    DigitSurvives(b % 16);
    var s := ByteText(b)[1..];
    assert s == [high, low];
    assert SkipSpaces(s) == s && SkipPrefix(s) == s;
    assert s[1..] == [low] && s[1..][1..] == [];
    assert Digits([], b) == b;
    assert Digits([low], b / 16) == Digits([], 16 * (b / 16) + b % 16);
    assert Digits(s, 0) == Digits([low], b / 16);
  }

  lemma DigitSurvives(n: nat)
    requires n < 16
    ensures DigitValue(HexDigit(n)) == n
    ensures !IsSpace(HexDigit(n)) && HexDigit(n) != '-' && HexDigit(n) != '+'
  {
  }

  /** The `i`-th triple of characters reads as `b`. */
  predicate ReadsAs(text: string, i: nat, b: Byte)
    requires 3 * i + 3 <= |text|
  {
    ParseByte(text[3 * i + 1..3 * i + 3]) == b
  }

  lemma {:induction false} BytesSurvive(text: string, data: seq<Byte>)
    requires |text| >= 3 * |data|
    requires forall i | 0 <= i < |data| :: ReadsAs(text, i, data[i])
    ensures ParsedData(text, |data|) == data
  {
    var n := |data| - 1;
    if n >= 0 {
      BytesSurvive(text, data[..n]);
      assert ReadsAs(text, n, data[n]);
      assert 3 * |data| - 2 == 3 * n + 1;
    }
  }

  lemma TripleSurvives(text: string, i: nat, b: Byte)
    requires 3 * i + 3 <= |text| && text[3 * i..3 * i + 3] == ByteText(b)
    ensures ReadsAs(text, i, b)
  {
    ByteSurvives(b);
    assert text[3 * i + 1..3 * i + 3] == text[3 * i..3 * i + 3][1..];
  }

  lemma TextSurvives(data: seq<Byte>)
    ensures ParsedData(DataText(data), |data|) == data
  {
    forall i | 0 <= i < |data| ensures ReadsAs(DataText(data), i, data[i]) {
      TextOfByte(data, i);
      TripleSurvives(DataText(data), i, data[i]);
    }
    BytesSurvive(DataText(data), data);
  }

  /**
   For every key type and all bytes that such a key has, loading what saving wrote is accepted and gives
   back the type and the bytes.
   */
  lemma KeyFileRoundTrip(t: KeyType, kept: seq<Byte>, text: string)
    requires |kept| == TypeDataSize(t) && text == SavedText(t, kept)
    ensures Loads(text) && HeaderType(text[0]) == (true, t)
    ensures ParsedData(text[1..], TypeDataSize(t)) == kept
  {
    TextSurvives(kept);
    assert text[1..] == DataText(kept);
  }

  /** What a save that went wrong leaves of a key file is never taken for a key: only the whole file loads. */
  lemma OnlyWholeFilesLoad(t: KeyType, kept: seq<Byte>, room: nat)
    requires |kept| == TypeDataSize(t) && room <= |SavedText(t, kept)|
    ensures Loads(SavedText(t, kept)[..room]) <==> room == |SavedText(t, kept)|
  {
    var full := SavedText(t, kept);
    if 0 < room {
      assert full[..room][0] == TypeChar(t) && HeaderType(TypeChar(t)) == (true, t);
    }
  }

  // ----- The format, letter by letter

  /** The digit for `n`, in upper or in lower case. */
  predicate IsDigitFor(c: char, n: nat, upper: bool)
    requires n < 16
  {
    c as int == if n < 10 then '0' as int + n else (if upper then 'A' as int else 'a' as int) + n - 10
  }

  /**
   A Dallas key has 8 bytes, a Metakom key 4 and a Cyfral key 2. Its file holds their first letter, and for
   each byte a space and two upper-case digits, the high one first.
   */
  lemma FileForm(t: KeyType, kept: seq<Byte>, i: nat)
    requires |kept| == TypeDataSize(t) && i < |kept|
    ensures match t
      case Dallas => |kept| == 8 && SavedText(t, kept)[0] == 'D'
      case Metakom => |kept| == 4 && SavedText(t, kept)[0] == 'M'
      case Cyfral => |kept| == 2 && SavedText(t, kept)[0] == 'C'
    ensures |SavedText(t, kept)| == 1 + 3 * |kept|
    ensures
      var three := SavedText(t, kept)[1 + 3 * i..4 + 3 * i];
      three[0] == ' ' && IsDigitFor(three[1], kept[i] / 16, true) && IsDigitFor(three[2], kept[i] % 16, true)
  {
    NextByteText(t, kept, i);
    DigitIsFor(kept[i] / 16);
    DigitIsFor(kept[i] % 16);
  }

  lemma DigitIsFor(n: nat)
    requires n < 16
    ensures IsDigitFor(HexDigit(n), n, true)
  {
  }

  /** Two digits are read as the byte they spell, whatever their case. */
  lemma DigitsAreRead(high: char, low: char, h: nat, l: nat, upper: bool, mixed: bool)
    requires h < 16 && l < 16 && IsDigitFor(high, h, upper) && IsDigitFor(low, l, mixed)
    ensures ParseByte([high, low]) == 16 * h + l
  {
    assert DigitValue(high) == h && DigitValue(low) == l;
    assert SkipSpaces([high, low]) == [high, low] == SkipPrefix([high, low]);
    assert [high, low][1..] == [low] && [low][1..] == [];
    assert Digits([low], h) == Digits([], 16 * h + l);
    assert Digits([high, low], 0) == Digits([low], h);
  }

  /**
   A single digit is read after a blank, a tab, a line break or a sign and before anything that is no digit, a
   minus wrapping round; what starts with anything else is read as zero.
   */
  lemma OneDigitIsRead(first: char, second: char, n: nat, upper: bool)
    requires n < 16
    ensures IsDigitFor(second, n, upper) && (first == ' ' || 9 <= first as int <= 13 || first == '+') ==>
              ParseByte([first, second]) == n
    ensures IsDigitFor(second, n, upper) && first == '-' ==> ParseByte([first, second]) == (256 - n) % 256
    ensures IsDigitFor(first, n, upper) && DigitValue(second) == 16 ==> ParseByte([first, second]) == n
    ensures DigitValue(first) == 16 && !IsSpace(first) && first != '+' && first != '-' ==>
              ParseByte([first, second]) == 0
  {
    assert [first, second][1..] == [second] && [second][1..] == [];
    assert Digits([], n) == n;
    if IsDigitFor(second, n, upper) {
      assert DigitValue(second) == n && !IsSpace(second);
      assert SkipSpaces([second]) == [second] == SkipPrefix([second]);
      assert Digits([second], 0) == Digits([], n);
    }
    if IsDigitFor(first, n, upper) {
      assert DigitValue(first) == n;
      assert Digits([first, second], 0) == Digits([second], n);
    }
  }

  /** A digit character is one of the sixteen, in either case. */
  lemma DigitCharacters(c: char)
    ensures DigitValue(c) < 16 <==> exists n: nat, upper: bool :: n < 16 && IsDigitFor(c, n, upper)
  {
    var n := DigitValue(c);
    if n < 16 {
      assert IsDigitFor(c, n, true) || IsDigitFor(c, n, false);
    }
  }

  /** A header is known exactly when it is the letter of a type, and then it means that type. */
  lemma HeadersAreLetters(c: char, t: KeyType)
    ensures HeaderType(c) == (true, t) <==> c == TypeChar(t)
    ensures HeaderType(c).0 <==> exists u: KeyType :: c == TypeChar(u)
  {
    assert HeaderType(c).0 ==> c == TypeChar(HeaderType(c).1);
  }
}
