/** `reserve` and `image_uri` of `attachment_images.rs`: the shared allowance that bounds the
    exported images and the work spent on them. Base64 is that of section 4 of RFC 4648. */
module ExportBudget {
  import opened Wrappers
  import opened Text

  const MAX_IMAGE_BYTES: nat := 2 * 1024 * 1024
  const IMAGE_ATTEMPT_BYTES: nat := 32
  /** The longest image type name that still fits the attempt charge. */
  const MAX_MIME_BYTES: nat := 19

  newtype byte = b: int | 0 <= b < 256

  type Bytes = seq<byte>

  function DivCeil3(n: nat): nat {
    (n + 2) / 3
  }

  function EncodedLen(n: nat): nat {
    DivCeil3(n) * 4
  }

  /** The base64 alphabet. */
  function Symbol(n: nat): (c: char)
    requires n < 64
    ensures c < '\U{80}'
  {
    if n < 26 then 'A' + n as char
    else if n < 52 then 'a' + (n - 26) as char
    else if n < 62 then '0' + (n - 52) as char
    else if n == 62 then '+' else '/'
  }

  predicate Ascii(s: string) {
    forall i :: 0 <= i < |s| ==> s[i] < '\U{80}'
  }

  /** The four symbols of one, two or three bytes. */
  function Group(bytes: Bytes): (s: string)
    requires bytes != []
    ensures |s| == 4 && Ascii(s)
  {
    var a := bytes[0] as nat;
    var b := if |bytes| > 1 then bytes[1] as nat else 0;
    var c := if |bytes| > 2 then bytes[2] as nat else 0;
    [Symbol(a / 4), Symbol(a % 4 * 16 + b / 16),
     if |bytes| > 1 then Symbol(b % 16 * 4 + c / 64) else '=',
     if |bytes| > 2 then Symbol(c % 64) else '=']
  }

  /** Three bytes to four symbols, a short last group padded. */
  function Encode(bytes: Bytes): (s: string)
    ensures |s| == EncodedLen(|bytes|)
    ensures Ascii(s)
  {
    if bytes == [] then ""
    else if |bytes| <= 3 then Group(bytes)
    else
      var first, rest := Group(bytes[..3]), Encode(bytes[3..]);
      AsciiConcat(first, rest);
      OneGroupMore(|bytes|);
      first + rest
  }

  /** The number a symbol stands for. */
  function Value(c: char): (n: Option<nat>)
    ensures n.Some? ==> n.value < 64
  {
    if 'A' <= c <= 'Z' then Some((c - 'A') as nat)
    else if 'a' <= c <= 'z' then Some((c - 'a') as nat + 26)
    else if '0' <= c <= '9' then Some((c - '0') as nat + 52)
    else if c == '+' then Some(62)
    else if c == '/' then Some(63)
    else None
  }

  /** The bytes of four symbols, padding at the end allowed, no bits left over. */
  function Ungroup(s: string): (r: Option<Bytes>)
    requires |s| == 4
    ensures r.Some? ==> 1 <= |r.value| <= 3
  {
    var a, b, c, d := Value(s[0]), Value(s[1]), Value(s[2]), Value(s[3]);
    if a.None? || b.None? then None
    else
      var first := (a.value * 4 + b.value / 16) as byte;
      if s[2] == '=' && s[3] == '=' then if b.value % 16 == 0 then Some([first]) else None
      else if c.None? then None
      else
        var second := (b.value % 16 * 16 + c.value / 4) as byte;
        if s[3] == '=' then if c.value % 4 == 0 then Some([first, second]) else None
        else if d.None? then None
        else Some([first, second, (c.value % 4 * 64 + d.value) as byte])
  }

  /** Padding only at the end, and always. */
  function Decode(s: string): Option<Bytes> {
    if s == "" then Some([])
    else if |s| < 4 then None
    else if |s| == 4 then Ungroup(s)
    else
      var first, rest := Ungroup(s[..4]), Decode(s[4..]);
      if first.None? || |first.value| != 3 || rest.None? then None else Some(first.value + rest.value)
  }

  lemma ValueOfSymbol(c: char, n: nat)
    requires n < 64
    ensures Value(c) == Some(n) <==> c == Symbol(n)
  {
  }

  /** Three bytes are the same bits as four numbers below 64. */
  lemma BitsRegroup(a: nat, b: nat, c: nat, w: nat, x: nat, y: nat, z: nat)
    requires a < 256 && b < 256 && c < 256 && w < 64 && x < 64 && y < 64 && z < 64
    ensures (w == a / 4 && x == a % 4 * 16 + b / 16 && y == b % 16 * 4 + c / 64 && z == c % 64)
       <==> (a == w * 4 + x / 16 && b == x % 16 * 16 + y / 4 && c == y % 4 * 64 + z)
  {
  }

  lemma UngroupsGroup(bytes: Bytes)
    requires 1 <= |bytes| <= 3
    ensures Ungroup(Group(bytes)) == Some(bytes)
  {
    var a := bytes[0] as nat;
    var b := if |bytes| > 1 then bytes[1] as nat else 0;
    var c := if |bytes| > 2 then bytes[2] as nat else 0;
    var w, x, y, z := a / 4, a % 4 * 16 + b / 16, b % 16 * 4 + c / 64, c % 64;
    BitsRegroup(a, b, c, w, x, y, z);
    GroupSymbols(bytes, w, x, y, z);
    assert [a as byte, b as byte, c as byte][..|bytes|] == bytes;
    UngroupsSymbols(Group(bytes), |bytes|, w, x, y, z);
  }

  lemma GroupSymbols(bytes: Bytes, w: nat, x: nat, y: nat, z: nat)
    requires 1 <= |bytes| <= 3
    requires var a := bytes[0] as nat;
      var b := if |bytes| > 1 then bytes[1] as nat else 0;
      var c := if |bytes| > 2 then bytes[2] as nat else 0;
      w == a / 4 && x == a % 4 * 16 + b / 16 && y == b % 16 * 4 + c / 64 && z == c % 64
    ensures w < 64 && x < 64 && y < 64 && z < 64
    ensures var s := Group(bytes);
      && Value(s[0]) == Some(w) && Value(s[1]) == Some(x)
      && (if |bytes| > 1 then Value(s[2]) == Some(y) else s[2] == '=')
      && (if |bytes| > 2 then Value(s[3]) == Some(z) else s[3] == '=')
  {
    ValueOfSymbol(Symbol(w), w);
    ValueOfSymbol(Symbol(x), x);
    ValueOfSymbol(Symbol(y), y);
    ValueOfSymbol(Symbol(z), z);
  }

  /** What four symbols decode to, `n` bytes of them. */
  lemma UngroupsSymbols(s: string, n: nat, w: nat, x: nat, y: nat, z: nat)
    requires |s| == 4 && 1 <= n <= 3 && w < 64 && x < 64 && y < 64 && z < 64
    requires Value(s[0]) == Some(w) && Value(s[1]) == Some(x)
    requires if n > 1 then Value(s[2]) == Some(y) else s[2] == '=' && x % 16 == 0
    requires if n > 2 then Value(s[3]) == Some(z) else s[3] == '=' && (n == 2 ==> y % 4 == 0)
    ensures var bytes := [(w * 4 + x / 16) as byte, (x % 16 * 16 + y / 4) as byte, (y % 4 * 64 + z) as byte];
      Ungroup(s) == Some(bytes[..n])
  {
    assert Value('=').None?;
    var bytes := [(w * 4 + x / 16) as byte, (x % 16 * 16 + y / 4) as byte, (y % 4 * 64 + z) as byte];
    if n == 1 {
      assert bytes[..1] == [bytes[0]];
    } else if n == 2 {
      assert bytes[..2] == [bytes[0], bytes[1]];
    } else {
      assert bytes[..3] == bytes;
    }
  }

  /** The numbers that four symbols which decode stand for, zero where there is padding. */
  lemma UngroupParts(s: string, bytes: Bytes) returns (w: nat, x: nat, y: nat, z: nat)
    requires |s| == 4 && Ungroup(s) == Some(bytes)
    ensures w < 64 && x < 64 && y < 64 && z < 64 && 1 <= |bytes| <= 3
    ensures s[0] == Symbol(w) && s[1] == Symbol(x)
    ensures if |bytes| > 1 then s[2] == Symbol(y) else s[2] == '=' && y == 0
    ensures if |bytes| > 2 then s[3] == Symbol(z) else s[3] == '=' && z == 0
    ensures bytes[0] as nat == w * 4 + x / 16
    ensures (if |bytes| > 1 then bytes[1] as nat else 0) == x % 16 * 16 + y / 4
    ensures (if |bytes| > 2 then bytes[2] as nat else 0) == y % 4 * 64 + z
  {
    w, x := Value(s[0]).value, Value(s[1]).value;
    y := if |bytes| > 1 then Value(s[2]).value else 0;
    z := if |bytes| > 2 then Value(s[3]).value else 0;
    ValueOfSymbol(s[0], w);
    ValueOfSymbol(s[1], x);
    ValueOfSymbol(s[2], y);
    ValueOfSymbol(s[3], z);
  }

  lemma GroupsUngrouped(s: string)
    requires |s| == 4 && Ungroup(s).Some?
    ensures Group(Ungroup(s).value) == s
  {
    var bytes := Ungroup(s).value;
    var w, x, y, z := UngroupParts(s, bytes);
    BitsRegroup(bytes[0] as nat, if |bytes| > 1 then bytes[1] as nat else 0,
                if |bytes| > 2 then bytes[2] as nat else 0, w, x, y, z);
  }

  /** Decoding undoes encoding. */
  lemma {:induction false} EncodedIsDecoded(bytes: Bytes)
    ensures Decode(Encode(bytes)) == Some(bytes)
  {
    if 0 < |bytes| <= 3 {
      UngroupsGroup(bytes);
    } else if bytes != [] {
      var first, rest := Group(bytes[..3]), Encode(bytes[3..]);
      UngroupsGroup(bytes[..3]);
      EncodedIsDecoded(bytes[3..]);
      assert (first + rest)[..4] == first && (first + rest)[4..] == rest;
      assert bytes == bytes[..3] + bytes[3..];
    }
  }

  /** Nothing but encoded bytes decodes. */
  lemma {:induction false} DecodedIsEncoded(s: string)
    requires Decode(s).Some?
    ensures Encode(Decode(s).value) == s
  {
    if |s| == 4 {
      GroupsUngrouped(s);
    } else if s != "" {
      var first, rest := Ungroup(s[..4]).value, Decode(s[4..]).value;
      GroupsUngrouped(s[..4]);
      DecodedIsEncoded(s[4..]);
      assert (first + rest)[..3] == first && (first + rest)[3..] == rest;
      assert s == s[..4] + s[4..];
    }
  }

  lemma OneGroupMore(n: nat)
    requires n > 3
    ensures EncodedLen(n) == 4 + EncodedLen(n - 3)
  {
  }

  lemma AsciiConcat(a: string, b: string)
    requires Ascii(a) && Ascii(b)
    ensures Ascii(a + b)
  {
  }

  lemma {:induction false} AsciiLen(s: string)
    requires Ascii(s)
    ensures Utf8Len(s) == |s|
  {
    if s != "" {
      AsciiLen(s[..|s| - 1]);
    }
  }

  /** What the world answers: what opening the file finds. */
  datatype FileAnswer = Unopened | NotAFile | Opened(length: nat, reading: FileRead)

  /** A read to the end, or one that failed after so many bytes. */
  datatype FileRead = Whole(content: Bytes) | Broken(bytes: nat)
  {
    function Count(): nat {
      match this
      case Whole(content) => |content|
      case Broken(bytes) => bytes
    }
  }

  datatype World = World(file: FileAnswer, sniffed: Option<string>)

  /** A read returns no more than it was asked for, and image type names are short. */
  ghost predicate Honest(w: World) {
    && (w.file.Opened? ==> w.file.reading.Count() <= w.file.length + 1)
    && (w.sniffed.Some? && "image/" <= w.sniffed.value ==> Utf8Len(w.sniffed.value) <= MAX_MIME_BYTES)
  }

  function SplitOnce(s: string): Option<(string, string)> {
    if s == "" then None
    else if s[0] == ',' then Some(("", s[1..]))
    else
      var rest := SplitOnce(s[1..]);
      if rest.None? then None else Some(([s[0]] + rest.value.0, rest.value.1))
  }

  predicate EndsWith(s: string, tail: string) {
    |tail| <= |s| && s[|s| - |tail|..] == tail
  }

  /** The outcome of a reservation: whether it fits, and what is left. A failure empties it. */
  function Reserved(budget: nat, bytes: nat): (bool, nat) {
    if bytes <= budget then (true, budget - bytes) else (false, 0)
  }

  /** What a source is charged after the attempt: the length of its base64 text, if it gets
      that far. */
  function Charge(source: string, w: World): Option<nat> {
    if "data:" <= source then
      var split := SplitOnce(source);
      if split.None? || !("data:image/" <= split.value.0) || !EndsWith(split.value.0, ";base64")
        || Utf8Len(split.value.1) > EncodedLen(MAX_IMAGE_BYTES)
      then None else Some(Utf8Len(split.value.1))
    else if !("/" <= source) || !w.file.Opened? || w.file.length > MAX_IMAGE_BYTES then None
    else Some(EncodedLen(w.file.length))
  }

  /** The image bytes behind a source whose charge was paid. */
  function Content(source: string, w: World): Option<Bytes> {
    if "data:" <= source then
      var split := SplitOnce(source);
      if split.None? then None else Decode(split.value.1)
    else if w.file.Opened? && w.file.reading.Whole? && |w.file.reading.content| <= w.file.length
    then Some(w.file.reading.content)
    else None
  }

  function Uri(bytes: Bytes, mime: string): string {
    "data:" + mime + ";base64," + Encode(bytes)
  }

  function Export(source: string, w: World, budget: nat): (Option<string>, nat) {
    var (attempted, afterAttempt) := Reserved(budget, IMAGE_ATTEMPT_BYTES);
    var charge := Charge(source, w);
    if !attempted || charge.None? then (None, afterAttempt)
    else
      var (paid, left) := Reserved(afterAttempt, charge.value);
      var content := Content(source, w);
      if !paid || content.None? || content.value == [] || |content.value| > MAX_IMAGE_BYTES
        || w.sniffed.None? || !("image/" <= w.sniffed.value)
      then (None, left)
      else (Some(Uri(content.value, w.sniffed.value)), left)
  }

  class Allowance {
    var left: nat

    constructor (budget: nat)
      ensures left == budget
    {
      left := budget;
    }

    method Reserve(bytes: nat) returns (ok: bool)
      modifies this
      ensures (ok, left) == Reserved(old(left), bytes)
    {
      if bytes <= left {
        left := left - bytes;
        return true;
      }
      left := 0;
      return false;
    }

    method ImageUri(source: string, w: World) returns (uri: Option<string>)
      requires Honest(w)
      modifies this
      ensures (uri, left) == Export(source, w, old(left))
    {
      var ok := Reserve(IMAGE_ATTEMPT_BYTES);
      if !ok {
        return None;
      }
      var bytes: Bytes;
      if "data:" <= source {
        var split := SplitOnce(source);
        if split.None? {
          return None;
        }
        var (header, encoded) := split.value;
        if !("data:image/" <= header) || !EndsWith(header, ";base64")
          || Utf8Len(encoded) > EncodedLen(MAX_IMAGE_BYTES) {
          return None;
        }
        ok := Reserve(Utf8Len(encoded));
        var decoded := Decode(encoded);
        if !ok || decoded.None? {
          return None;
        }
        bytes := decoded.value;
      } else {
        if !("/" <= source) || !w.file.Opened? || w.file.length > MAX_IMAGE_BYTES {
          return None;
        }
        ok := Reserve(EncodedLen(w.file.length));
        if !ok || w.file.reading.Broken? || |w.file.reading.content| > w.file.length {
          return None;
        }
        bytes := w.file.reading.content;
      }
      if bytes == [] || |bytes| > MAX_IMAGE_BYTES || w.sniffed.None? || !("image/" <= w.sniffed.value) {
        return None;
      }
      return Some(Uri(bytes, w.sniffed.value));
    }
  }

  // ---------------------------------------------------------------------------
  // What the allowance bounds.

  function UriLen(uri: Option<string>): nat {
    if uri.Some? then Utf8Len(uri.value) else 0
  }

  /** Bytes decoded or read for one source, past its charge, a read that failed part way included. */
  function Work(source: string, w: World, budget: nat): nat {
    var (attempted, left) := Reserved(budget, IMAGE_ATTEMPT_BYTES);
    var charge := Charge(source, w);
    if !attempted || charge.None? || !Reserved(left, charge.value).0 then 0
    else if "data:" <= source then charge.value
    else w.file.reading.Count()
  }

  /** Did the call get past its first reservation? */
  function Attempts(budget: nat): nat {
    if budget >= IMAGE_ATTEMPT_BYTES then 1 else 0
  }

  lemma EncodedLenGrows(m: nat, n: nat)
    requires m <= n
    ensures EncodedLen(m) <= EncodedLen(n) && n <= EncodedLen(n)
  {
  }

  lemma UriFits(bytes: Bytes, mime: string)
    requires Utf8Len(mime) <= MAX_MIME_BYTES
    ensures Utf8Len(Uri(bytes, mime)) <= IMAGE_ATTEMPT_BYTES + EncodedLen(|bytes|)
  {
    AsciiLen(Encode(bytes));
    AsciiLen("data:");
    AsciiLen(";base64,");
    Utf8LenConcat("data:" + mime + ";base64,", Encode(bytes));
    Utf8LenConcat("data:" + mime, ";base64,");
    Utf8LenConcat("data:", mime);
  }

  /** One call: what it returns, the work it does and its attempt are all paid for, and the
      allowance never grows, on success or failure. */
  lemma CallIsPaidFor(source: string, w: World, budget: nat)
    requires Honest(w)
    ensures var (uri, left) := Export(source, w, budget);
      && left <= budget
      && UriLen(uri) <= budget - left
      && Work(source, w, budget) <= budget - left
      && Attempts(budget) * IMAGE_ATTEMPT_BYTES <= budget - left
  {
    var (uri, left) := Export(source, w, budget);
    if uri.Some? {
      var bytes := Content(source, w).value;
      UriFits(bytes, w.sniffed.value);
      if "data:" <= source {
        DecodedIsEncoded(SplitOnce(source).value.1);
        AsciiLen(Encode(bytes));
      } else {
        EncodedLenGrows(|bytes|, w.file.length);
      }
    }
    if w.file.Opened? {
      EncodedLenGrows(w.file.length, w.file.length);
    }
  }

  lemma {:induction false} SplitAtFirst(header: string, rest: string)
    requires ',' !in header
    ensures SplitOnce(header + "," + rest) == Some((header, rest))
  {
    var s := header + "," + rest;
    if header == "" {
      assert s[1..] == rest;
    } else {
      assert s[1..] == header[1..] + "," + rest;
      SplitAtFirst(header[1..], rest);
      assert s[0] == header[0] && header[0] in header;
      assert [s[0]] + header[1..] == header;
    }
  }

  lemma SplitOfImageText(bytes: Bytes, mime: string)
    requires ',' !in mime
    ensures SplitOnce(Uri(bytes, mime)) == Some(("data:" + mime + ";base64", Encode(bytes)))
  {
    var header := "data:" + mime + ";base64";
    assert Uri(bytes, mime) == header + "," + Encode(bytes);
    SplitAtFirst(header, Encode(bytes));
  }

  lemma ChargeOfImageText(bytes: Bytes, mime: string, w: World)
    requires |bytes| <= MAX_IMAGE_BYTES && "image/" <= mime && ',' !in mime
    ensures Charge(Uri(bytes, mime), w) == Some(EncodedLen(|bytes|))
    ensures Content(Uri(bytes, mime), w) == Some(bytes)
  {
    var header := "data:" + mime + ";base64";
    SplitOfImageText(bytes, mime);
    EncodedIsDecoded(bytes);
    assert "data:image/" == "data:" + "image/" <= header;
    assert header[|header| - 7..] == ";base64";
    AsciiLen(Encode(bytes));
    EncodedLenGrows(|bytes|, MAX_IMAGE_BYTES);
  }

  /** A data URI of an image is exported as it stands, exactly when the allowance covers the
      attempt and its text. */
  lemma ImageTextIsExportedAsIs(bytes: Bytes, mime: string, w: World, budget: nat)
    requires bytes != [] && |bytes| <= MAX_IMAGE_BYTES
    requires w.sniffed == Some(mime) && "image/" <= mime && ',' !in mime
    ensures var source := Uri(bytes, mime); var cost := IMAGE_ATTEMPT_BYTES + EncodedLen(|bytes|);
      && (budget >= cost ==> Export(source, w, budget) == (Some(source), budget - cost))
      && (budget < cost ==> Export(source, w, budget) == (None, 0))
  {
    ChargeOfImageText(bytes, mime, w);
  }

  /** An image file that holds what it says it does is exported exactly when the allowance
      covers the attempt and its encoded length. */
  lemma ImageFileIsExported(path: string, bytes: Bytes, mime: string, w: World, budget: nat)
    requires "/" <= path && bytes != [] && |bytes| <= MAX_IMAGE_BYTES
    requires w.file == Opened(|bytes|, Whole(bytes)) && w.sniffed == Some(mime) && "image/" <= mime
    ensures var cost := IMAGE_ATTEMPT_BYTES + EncodedLen(|bytes|);
      && (budget >= cost ==> Export(path, w, budget) == (Some(Uri(bytes, mime)), budget - cost))
      && (budget < cost ==> Export(path, w, budget) == (None, 0))
  {
  }

  /** The source is a data URI whose header names an image in base64, with the text of `bytes`. */
  ghost predicate IsImageText(source: string, header: string, bytes: Bytes) {
    && source == header + "," + Encode(bytes) && ',' !in header
    && "data:image/" <= header && EndsWith(header, ";base64")
  }

  lemma {:induction false} SplitIsFirst(s: string)
    ensures match SplitOnce(s)
      case None => ',' !in s
      case Some((header, rest)) => ',' !in header && s == header + "," + rest
  {
    if s != "" && s[0] != ',' {
      SplitIsFirst(s[1..]);
      assert s == [s[0]] + s[1..];
    }
  }

  /** Whatever is exported is the content of an image that the source holds, written out in
      full: of a data URI of an image, or of a file at an absolute path that did not grow. */
  lemma ExportedIsTheImage(source: string, w: World, budget: nat) returns (header: string, bytes: Bytes, mime: string)
    requires Export(source, w, budget).0.Some?
    ensures Export(source, w, budget).0 == Some("data:" + mime + ";base64," + Encode(bytes))
    ensures 0 < |bytes| <= MAX_IMAGE_BYTES && w.sniffed == Some(mime) && "image/" <= mime
    ensures if "data:" <= source then IsImageText(source, header, bytes)
            else "/" <= source && w.file.Opened? && w.file.reading == Whole(bytes)
                 && |bytes| <= w.file.length <= MAX_IMAGE_BYTES
  {
    bytes, mime := Content(source, w).value, w.sniffed.value;
    header := "";
    if "data:" <= source {
      header := SplitOnce(source).value.0;
      SplitIsFirst(source);
      DecodedIsEncoded(SplitOnce(source).value.1);
    }
  }

  datatype Call = Call(source: string, world: World)

  datatype Tally = Tally(left: nat, exported: nat, work: nat, attempts: nat)

  function Spend(budget: nat, calls: seq<Call>): Tally {
    if calls == [] then Tally(budget, 0, 0, 0)
    else
      var before, call := Spend(budget, calls[..|calls| - 1]), calls[|calls| - 1];
      var (uri, left) := Export(call.source, call.world, before.left);
      Tally(left, before.exported + UriLen(uri), before.work + Work(call.source, call.world, before.left),
            before.attempts + Attempts(before.left))
  }

  /** Over any sequence of calls on one allowance: the exported text, and separately the bytes
      decoded or read, total at most what was spent, and at most a thirty-second of the
      allowance get past the first reservation. */
  lemma {:induction false} AllowanceBoundsEverything(budget: nat, calls: seq<Call>)
    requires forall i :: 0 <= i < |calls| ==> Honest(calls[i].world)
    ensures var t := Spend(budget, calls);
      && t.left <= budget
      && t.exported <= budget - t.left
      && t.work <= budget - t.left
      && t.attempts <= budget / IMAGE_ATTEMPT_BYTES
      && t.attempts * IMAGE_ATTEMPT_BYTES <= budget - t.left
  {
    if calls != [] {
      var n := |calls| - 1;
      AllowanceBoundsEverything(budget, calls[..n]);
      CallIsPaidFor(calls[n].source, calls[n].world, Spend(budget, calls[..n]).left);
    }
  }
}
