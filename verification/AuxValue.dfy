/**
 Values of auxiliary files: a version byte and length-prefixed entries, one encoder and two
 decoders. Malformed lengths and versions panic, a path that is not UTF-8 is an error.
 */
module AuxValue {
  import opened Wrappers
  import opened AuxKey

  // ---------------------------------------------------------------- Format

  const VERSION: byte := 0x01
  const U32_MAX: nat := 0xFFFF_FFFF

  datatype File = File(path: seq<byte>, content: seq<byte>)

  datatype EncodeError = PathTooLong(path: seq<byte>) | ContentTooLong(path: seq<byte>)

  predicate Cont(b: byte) {
    0x80 <= b <= 0xBF
  }

  /** Well-formed UTF-8, by the table of section 4 of RFC 3629. */
  predicate ValidUtf8(b: seq<byte>) {
    if b == [] then true
    else if b[0] <= 0x7F then ValidUtf8(b[1..])
    else if 0xC2 <= b[0] <= 0xDF then |b| >= 2 && Cont(b[1]) && ValidUtf8(b[2..])
    else if 0xE0 <= b[0] <= 0xEF then
      && |b| >= 3 && Cont(b[1]) && Cont(b[2])
      && (b[0] == 0xE0 ==> b[1] >= 0xA0) && (b[0] == 0xED ==> b[1] <= 0x9F)
      && ValidUtf8(b[3..])
    else if 0xF0 <= b[0] <= 0xF4 then
      && |b| >= 4 && Cont(b[1]) && Cont(b[2]) && Cont(b[3])
      && (b[0] == 0xF0 ==> b[1] >= 0x90) && (b[0] == 0xF4 ==> b[1] <= 0x8F)
      && ValidUtf8(b[4..])
    else false
  }

  function Chunk(b: seq<byte>): seq<byte> {
    ToBeBytes(|b|, 4) + b
  }

  function Entry(f: File): seq<byte> {
    Chunk(f.path) + Chunk(f.content)
  }

  function Entries(files: seq<File>): seq<byte> {
    if files == [] then [] else Entries(files[..|files| - 1]) + Entry(files[|files| - 1])
  }

  /** The first file that is too long for its length field, if any. */
  function TooLong(files: seq<File>): Option<EncodeError> {
    if files == [] then None
    else match TooLong(files[..|files| - 1])
         case Some(e) => Some(e)
         case None =>
           var f := files[|files| - 1];
           if |f.path| > U32_MAX then Some(PathTooLong(f.path))
           else if |f.content| > U32_MAX then Some(ContentTooLong(f.path))
           else None
  }

  function Encode(files: seq<File>): Result<seq<byte>, EncodeError> {
    if files == [] then Ok([])
    else match TooLong(files)
         case Some(e) => Err(e)
         case None => Ok([VERSION] + Entries(files))
  }

  method EncodeFileValue(files: seq<File>) returns (r: Result<seq<byte>, EncodeError>)
    ensures r == Encode(files)
  {
    if files == [] {
      return Ok([]);
    }
    var encoded: seq<byte> := [VERSION];
    for i := 0 to |files|
      invariant encoded == [VERSION] + Entries(files[..i]) && TooLong(files[..i]).None?
    {
      var f := files[i];
      assert files[..i + 1][..i] == files[..i];
      if |f.path| > U32_MAX {
        FirstTooLong(files, i + 1);
        return Err(PathTooLong(f.path));
      }
      encoded := encoded + ToBeBytes(|f.path|, 4);
      encoded := encoded + f.path;
      if |f.content| > U32_MAX {
        FirstTooLong(files, i + 1);
        return Err(ContentTooLong(f.path));
      }
      encoded := encoded + ToBeBytes(|f.content|, 4);
      encoded := encoded + f.content;
      assert encoded == [VERSION] + (Entries(files[..i]) + Entry(f));
    }
    assert files[..|files|] == files;
    r := Ok(encoded);
  }

  lemma {:induction false} FirstTooLong(files: seq<File>, i: nat)
    requires i <= |files| && TooLong(files[..i]).Some?
    ensures TooLong(files) == TooLong(files[..i])
    decreases |files| - i
  {
    if i == |files| {
      assert files[..i] == files;
    } else {
      assert files[..i + 1][..i] == files[..i];
      FirstTooLong(files, i + 1);
    }
  }

  // ---------------------------------------------------------------- Decoding

  datatype Decoded = Files(files: seq<File>) | Utf8Error | Panicked

  /** A length-prefixed chunk and what follows it; `None` where reading it would panic. */
  function ReadChunk(p: seq<byte>): (r: Option<(seq<byte>, seq<byte>)>)
    ensures r.Some? ==> |r.value.1| + 4 <= |p|
  {
    if |p| < 4 then None
    else
      var n := FromBeBytes(p[..4]);
      if |p| - 4 < n then None else Some((p[4..4 + n], p[4 + n..]))
  }

  function DecodeEntries(p: seq<byte>): Decoded
    decreases |p|
  {
    if p == [] then Files([])
    else
      match ReadChunk(p)
      case None => Panicked
      case Some((path, p1)) =>
        match ReadChunk(p1)
        case None => Panicked
        case Some((content, p2)) =>
          if !ValidUtf8(path) then Utf8Error
          else match DecodeEntries(p2)
               case Files(files) => Files([File(path, content)] + files)
               case other => other
  }

  function Decode(val: seq<byte>): Decoded {
    if val == [] then Files([])
    else if val[0] != VERSION then Panicked
    else DecodeEntries(val[1..])
  }

  /** What the loop has read so far, put in front of what the rest decodes to. */
  function After(files: seq<File>, d: Decoded): Decoded {
    if d.Files? then Files(files + d.files) else d
  }

  /** The decoder over a borrowed slice, which is advanced past what has been read. */
  method DecodeFileValue(val: seq<byte>) returns (r: Decoded)
    ensures r == Decode(val)
  {
    var ptr := val;
    if ptr == [] {
      return Files([]);
    }
    if ptr[0] != VERSION {
      return Panicked;
    }
    ptr := ptr[1..];
    var files: seq<File> := [];
    while ptr != []
      invariant Decode(val) == After(files, DecodeEntries(ptr))
      decreases |ptr|
    {
      var c1 := ReadChunk(ptr);
      if c1.None? {
        return Panicked;
      }
      var path := c1.value.0;
      ptr := c1.value.1;
      var c2 := ReadChunk(ptr);
      if c2.None? {
        return Panicked;
      }
      ptr := c2.value.1;
      if !ValidUtf8(path) {
        return Utf8Error;
      }
      AfterStep(files, File(path, c2.value.0), DecodeEntries(ptr));
      files := files + [File(path, c2.value.0)];
    }
    r := Files(files);
  }

  lemma AfterStep(files: seq<File>, f: File, d: Decoded)
    ensures After(files, After([f], d)) == After(files + [f], d)
  {
    if d.Files? {
      assert files + ([f] + d.files) == files + [f] + d.files;
    }
  }

  /** A content returned by the second decoder: a view into the value, not a copy. */
  datatype View = View(path: seq<byte>, start: nat, end: nat)

  datatype ViewsDecoded = Views(views: seq<View>) | ViewsUtf8Error | ViewsPanicked

  predicate InBounds(v: View, val: seq<byte>) {
    v.start <= v.end <= |val|
  }

  predicate AllInBounds(views: seq<View>, val: seq<byte>) {
    forall i :: 0 <= i < |views| ==> InBounds(views[i], val)
  }

  function FileAt(val: seq<byte>, v: View): File
    requires InBounds(v, val)
  {
    File(v.path, val[v.start..v.end])
  }

  function Resolve(val: seq<byte>, views: seq<View>): seq<File>
    requires AllInBounds(views, val)
  {
    if views == [] then [] else Resolve(val, views[..|views| - 1]) + [FileAt(val, views[|views| - 1])]
  }

  lemma ResolveSnoc(val: seq<byte>, views: seq<View>, v: View)
    requires AllInBounds(views, val) && InBounds(v, val)
    ensures AllInBounds(views + [v], val)
    ensures Resolve(val, views + [v]) == Resolve(val, views) + [FileAt(val, v)]
  {
    assert (views + [v])[..|views|] == views;
  }

  /** Where the chunk at the cursor lies in the value. */
  method NextChunk(val: seq<byte>, pos: nat) returns (r: Option<(nat, nat)>)
    requires pos <= |val|
    ensures match r
            case None => ReadChunk(val[pos..]).None?
            case Some((start, end)) =>
              pos < start <= end <= |val| && ReadChunk(val[pos..]) == Some((val[start..end], val[end..]))
  {
    ChunkAt(val, pos);
    if |val| - pos < 4 {
      return None;
    }
    var len := FromBeBytes(val[pos..pos + 4]);
    if |val| - (pos + 4) < len {
      return None;
    }
    r := Some((pos + 4, pos + 4 + len));
  }

  /** The decoder over shared bytes: a cursor moves over the value and contents are views into it. */
  method DecodeFileValueBytes(val: seq<byte>) returns (r: ViewsDecoded)
    ensures r.ViewsPanicked? <==> Decode(val).Panicked?
    ensures r.ViewsUtf8Error? <==> Decode(val).Utf8Error?
    ensures r.Views? ==>
              AllInBounds(r.views, val) && Decode(val) == Files(Resolve(val, r.views))
  {
    if val == [] {
      return Views([]);
    }
    if val[0] != VERSION {
      return ViewsPanicked;
    }
    var pos := 1;
    var views: seq<View> := [];
    while pos < |val|
      invariant 1 <= pos <= |val|
      invariant AllInBounds(views, val)
      invariant Decode(val) == After(Resolve(val, views), DecodeEntries(val[pos..]))
    {
      var key := NextChunk(val, pos);
      if key.None? {
        return ViewsPanicked;
      }
      var path := val[key.value.0..key.value.1];
      var content := NextChunk(val, key.value.1);
      if content.None? {
        return ViewsPanicked;
      }
      pos := content.value.1;
      if !ValidUtf8(path) {
        return ViewsUtf8Error;
      }
      var view := View(path, content.value.0, pos);
      AfterStep(Resolve(val, views), FileAt(val, view), DecodeEntries(val[pos..]));
      ResolveSnoc(val, views, view);
      views := views + [view];
    }
    r := Views(views);
  }

  lemma ChunkAt(val: seq<byte>, pos: nat)
    requires pos <= |val|
    ensures ReadChunk(val[pos..]) ==
              if |val| - pos < 4 then None
              else
                var n := FromBeBytes(val[pos..pos + 4]);
                if |val| - (pos + 4) < n then None else Some((val[pos + 4..pos + 4 + n], val[pos + 4 + n..]))
  {
    var p := val[pos..];
    if |p| >= 4 {
      assert p[..4] == val[pos..pos + 4];
      var n := FromBeBytes(p[..4]);
      if |p| - 4 >= n {
        assert p[4..4 + n] == val[pos + 4..pos + 4 + n];
        assert p[4 + n..] == val[pos + 4 + n..];
      }
    }
  }

  // ---------------------------------------------------------------- Round trips

  lemma Pow256Of4()
    ensures Pow256(4) == U32_MAX + 1
  {
    assert Pow256(2) == 0x10000;
  }

  lemma ChunkReadsBack(b: seq<byte>, rest: seq<byte>)
    requires |b| <= U32_MAX
    ensures ReadChunk(Chunk(b) + rest) == Some((b, rest))
  {
    Pow256Of4();
    BytesOfLow(|b|, 4);
    var p := Chunk(b) + rest;
    assert p[..4] == ToBeBytes(|b|, 4);
    assert p[4..4 + |b|] == b && p[4 + |b|..] == rest;
  }

  lemma EntryReadsBack(f: File, rest: seq<byte>)
    requires |f.path| <= U32_MAX && |f.content| <= U32_MAX && ValidUtf8(f.path)
    ensures DecodeEntries(Entry(f) + rest) == After([f], DecodeEntries(rest))
  {
    assert Entry(f) + rest == Chunk(f.path) + (Chunk(f.content) + rest);
    ChunkReadsBack(f.path, Chunk(f.content) + rest);
    ChunkReadsBack(f.content, rest);
  }

  lemma EntriesLast(files: seq<File>, last: File)
    ensures Entries(files + [last]) == Entries(files) + Entry(last)
    ensures TooLong(files + [last]).None? <==> TooLong(files).None? && TooLong([last]).None?
  {
    assert (files + [last])[..|files|] == files && [last][..0] == [];
  }

  lemma Regroup<T>(a: seq<T>, b: seq<T>, c: seq<T>)
    ensures a + (b + c) == a + b + c
  {}

  lemma EntriesOne(f: File)
    ensures Entries([f]) == Entry(f)
  {
    EntriesLast([], f);
    assert [] + [f] == [f];
  }

  lemma {:induction false} EntriesCons(f: File, files: seq<File>)
    ensures Entries([f] + files) == Entry(f) + Entries(files)
  {
    if files == [] {
      EntriesOne(f);
      assert [f] + files == [f];
    } else {
      var pre, last := files[..|files| - 1], files[|files| - 1];
      EntriesCons(f, pre);
      EntriesLast([f] + pre, last);
      EntriesLast(pre, last);
      Regroup([f], pre, [last]);
      Regroup(Entry(f), Entries(pre), Entry(last));
      assert files == pre + [last];
    }
  }

  lemma {:induction false} TooLongCons(f: File, files: seq<File>)
    ensures TooLong([f] + files).None? <==> TooLong([f]).None? && TooLong(files).None?
  {
    if files == [] {
      assert [f] + files == [f];
    } else {
      var pre, last := files[..|files| - 1], files[|files| - 1];
      TooLongCons(f, pre);
      EntriesLast([f] + pre, last);
      EntriesLast(pre, last);
      Regroup([f], pre, [last]);
      assert files == pre + [last];
    }
  }

  lemma {:induction false} EntriesReadBack(files: seq<File>)
    requires TooLong(files).None? && forall i :: 0 <= i < |files| ==> ValidUtf8(files[i].path)
    ensures DecodeEntries(Entries(files)) == Files(files)
  {
    if files != [] {
      var f, rest := files[0], files[1..];
      assert files == [f] + rest;
      EntriesCons(f, rest);
      TooLongCons(f, rest);
      assert [f][..0] == [];
      EntriesReadBack(rest);
      EntryReadsBack(f, Entries(rest));
    }
  }

  /** Decoding an encoded list returns that list, for every list of UTF-8 paths the encoder accepts. */
  lemma DecodeEncoded(files: seq<File>)
    requires Encode(files).Ok? && forall i :: 0 <= i < |files| ==> ValidUtf8(files[i].path)
    ensures Decode(Encode(files).value) == Files(files)
  {
    if files != [] {
      EntriesReadBack(files);
      assert ([VERSION] + Entries(files))[1..] == Entries(files);
    }
  }

  lemma {:induction false} BytesBack(b: seq<byte>)
    ensures FromBeBytes(b) < Pow256(|b|) && ToBeBytes(FromBeBytes(b), |b|) == b
  {
    if b != [] {
      var k := |b| - 1;
      BytesBack(b[..k]);
      assert b == b[..k] + [b[k]];
    }
  }

  lemma ChunkRewrites(p: seq<byte>)
    requires ReadChunk(p).Some?
    ensures var (b, rest) := ReadChunk(p).value; |b| <= U32_MAX && p == Chunk(b) + rest
  {
    Pow256Of4();
    BytesBack(p[..4]);
    var (b, rest) := ReadChunk(p).value;
    assert p == p[..4] + b + rest;
  }

  lemma FirstEntry(p: seq<byte>) returns (f: File, rest: seq<byte>)
    requires p != [] && DecodeEntries(p).Files?
    ensures p == Entry(f) + rest && |f.path| <= U32_MAX && |f.content| <= U32_MAX
    ensures DecodeEntries(rest).Files? && DecodeEntries(p).files == [f] + DecodeEntries(rest).files
    ensures |rest| < |p|
  {
    ChunkRewrites(p);
    var (path, p1) := ReadChunk(p).value;
    ChunkRewrites(p1);
    var (content, p2) := ReadChunk(p1).value;
    f, rest := File(path, content), p2;
    assert Chunk(path) + (Chunk(content) + p2) == Entry(f) + p2;
  }

  lemma OneNotTooLong(f: File)
    requires |f.path| <= U32_MAX && |f.content| <= U32_MAX
    ensures TooLong([f]).None?
  {
    assert [f][..0] == [];
  }

  lemma {:induction false} EntriesRewrite(p: seq<byte>)
    requires DecodeEntries(p).Files?
    ensures Entries(DecodeEntries(p).files) == p && TooLong(DecodeEntries(p).files).None?
    ensures DecodeEntries(p).files == [] <==> p == []
    decreases |p|
  {
    if p != [] {
      var f, rest := FirstEntry(p);
      EntriesRewrite(rest);
      EntriesCons(f, DecodeEntries(rest).files);
      TooLongCons(f, DecodeEntries(rest).files);
      OneNotTooLong(f);
    }
  }

  lemma ReencodeEntries(p: seq<byte>)
    requires DecodeEntries(p).Files?
    ensures Encode(DecodeEntries(p).files) == Ok(if p == [] then [] else [VERSION] + p)
  {
    EntriesRewrite(p);
  }

  /** Re-encoding an accepted value returns it byte for byte, unless it is the lone version byte. */
  lemma ReencodeDecoded(val: seq<byte>)
    requires Decode(val).Files?
    ensures Encode(Decode(val).files) == Ok(val) <==> val != [VERSION]
  {
    if val != [] {
      var p := val[1..];
      assert val == [VERSION] + p;
      ReencodeEntries(p);
    }
  }

  // ---------------------------------------------------------------- Layout

  /** The length field is four bytes, the most significant first. */
  lemma LengthField(n: nat)
    ensures ToBeBytes(n, 4) == [n / 0x100_0000 % 256, n / 0x1_0000 % 256, n / 0x100 % 256, n % 256]
  {
    assert n / 256 / 256 == n / 0x1_0000 && n / 256 / 256 / 256 == n / 0x100_0000;
    assert ToBeBytes(n / 0x1_0000, 2) == [n / 0x100_0000 % 256, n / 0x1_0000 % 256] by {
      assert n / 0x1_0000 / 256 == n / 0x100_0000;
    }
    assert ToBeBytes(n, 4) == ToBeBytes(n / 256 / 256, 2) + [n / 256 % 256] + [n % 256];
  }

  /** An encoded list is the version byte and, file by file, length, path, length and content. */
  lemma EncodedLayout(files: seq<File>, f: File)
    requires Encode(files + [f]).Ok?
    ensures files == [] ==> Encode(files + [f]).value == [0x01] + (ToBeBytes(|f.path|, 4) + f.path + ToBeBytes(|f.content|, 4) + f.content)
    ensures files != [] ==>
              && Encode(files).Ok?
              && Encode(files + [f]).value
              == Encode(files).value + (ToBeBytes(|f.path|, 4) + f.path + ToBeBytes(|f.content|, 4) + f.content)
  {
    var entry := ToBeBytes(|f.path|, 4) + f.path + ToBeBytes(|f.content|, 4) + f.content;
    assert Entry(f) == entry;
    EntriesLast(files, f);
    if files != [] {
      assert [VERSION] + (Entries(files) + entry) == [VERSION] + Entries(files) + entry;
    } else {
      assert Entries(files) + entry == entry;
    }
  }

  /** A list is refused exactly when a path or a content does not fit its length field. */
  lemma {:induction false} RefusedIff(files: seq<File>)
    ensures TooLong(files).Some? <==>
              exists i :: 0 <= i < |files| && (|files[i].path| > U32_MAX || |files[i].content| > U32_MAX)
  {
    if files != [] {
      var k := |files| - 1;
      RefusedIff(files[..k]);
      forall i | 0 <= i < k ensures files[..k][i] == files[i] {}
      if i :| 0 <= i < k && (|files[..k][i].path| > U32_MAX || |files[..k][i].content| > U32_MAX) {
        assert |files[i].path| > U32_MAX || |files[i].content| > U32_MAX;
      }
    }
  }

  // ---------------------------------------------------------------- UTF-8

  /** A Unicode scalar value. */
  predicate IsScalar(c: int) {
    0 <= c < 0xD800 || 0xE000 <= c < 0x11_0000
  }

  /** The bytes of one character, by section 3 of RFC 3629. */
  function EncodeScalar(c: int): seq<byte>
    requires IsScalar(c)
  {
    if c < 0x80 then [c]
    else if c < 0x800 then [0xC0 + c / 0x40, 0x80 + c % 0x40]
    else if c < 0x1_0000 then [0xE0 + c / 0x1000, 0x80 + c / 0x40 % 0x40, 0x80 + c % 0x40]
    else [0xF0 + c / 0x4_0000, 0x80 + c / 0x1000 % 0x40, 0x80 + c / 0x40 % 0x40, 0x80 + c % 0x40]
  }

  function EncodeText(text: seq<int>): seq<byte>
    requires forall i :: 0 <= i < |text| ==> IsScalar(text[i])
  {
    if text == [] then [] else EncodeScalar(text[0]) + EncodeText(text[1..])
  }

  lemma ShortScalarIsValid(c: int, rest: seq<byte>)
    requires IsScalar(c) && c < 0x800 && ValidUtf8(rest)
    ensures ValidUtf8(EncodeScalar(c) + rest)
  {
    var b := EncodeScalar(c) + rest;
    assert b[|EncodeScalar(c)|..] == rest;
  }

  lemma MiddleScalarIsValid(c: int, rest: seq<byte>)
    requires IsScalar(c) && 0x800 <= c < 0x1_0000 && ValidUtf8(rest)
    ensures ValidUtf8(EncodeScalar(c) + rest)
  {
    var b := EncodeScalar(c) + rest;
    assert b[3..] == rest;
  }

  lemma LongScalarIsValid(c: int, rest: seq<byte>)
    requires IsScalar(c) && 0x1_0000 <= c && ValidUtf8(rest)
    ensures ValidUtf8(EncodeScalar(c) + rest)
  {
    var b := EncodeScalar(c) + rest;
    assert b[4..] == rest;
  }

  lemma EncodedScalarIsValid(c: int, rest: seq<byte>)
    requires IsScalar(c) && ValidUtf8(rest)
    ensures ValidUtf8(EncodeScalar(c) + rest)
  {
    if c < 0x800 {
      ShortScalarIsValid(c, rest);
    } else if c < 0x1_0000 {
      MiddleScalarIsValid(c, rest);
    } else {
      LongScalarIsValid(c, rest);
    }
  }

  /** The first character of well-formed bytes. */
  lemma FirstScalar(b: seq<byte>) returns (c: int, rest: seq<byte>)
    requires b != [] && ValidUtf8(b)
    ensures IsScalar(c) && b == EncodeScalar(c) + rest && ValidUtf8(rest) && |rest| < |b|
  {
    if b[0] <= 0x7F {
      c, rest := b[0], b[1..];
    } else if b[0] <= 0xDF {
      c := TwoBytes(b[0], b[1]);
      rest := b[2..];
    } else if b[0] <= 0xEF {
      c := ThreeBytes(b[0], b[1], b[2]);
      rest := b[3..];
    } else {
      c := FourBytes(b[0], b[1], b[2], b[3]);
      rest := b[4..];
    }
  }

  lemma TwoBytes(x: byte, y: byte) returns (c: int)
    requires 0xC2 <= x <= 0xDF && Cont(y)
    ensures IsScalar(c) && EncodeScalar(c) == [x, y]
  {
    c := (x as int - 0xC0) * 0x40 + (y as int - 0x80);
  }

  lemma ThreeBytes(x: byte, y: byte, z: byte) returns (c: int)
    requires 0xE0 <= x <= 0xEF && Cont(y) && Cont(z) && (x == 0xE0 ==> y >= 0xA0) && (x == 0xED ==> y <= 0x9F)
    ensures IsScalar(c) && EncodeScalar(c) == [x, y, z]
  {
    c := (x as int - 0xE0) * 0x1000 + (y - 0x80) * 0x40 + (z - 0x80);
    assert c / 0x40 == (x - 0xE0) * 0x40 + (y - 0x80);
  }

  lemma FourBytes(w: byte, x: byte, y: byte, z: byte) returns (c: int)
    requires 0xF0 <= w <= 0xF4 && Cont(x) && Cont(y) && Cont(z) && (w == 0xF0 ==> x >= 0x90) && (w == 0xF4 ==> x <= 0x8F)
    ensures IsScalar(c) && EncodeScalar(c) == [w, x, y, z]
  {
    c := (w as int - 0xF0) * 0x4_0000 + (x - 0x80) * 0x1000 + (y - 0x80) * 0x40 + (z - 0x80);
    assert c / 0x40 == (w - 0xF0) * 0x1000 + (x - 0x80) * 0x40 + (y - 0x80);
    assert c / 0x1000 == (w - 0xF0) * 0x40 + (x - 0x80);
  }

  lemma {:induction false} EncodedIsValid(text: seq<int>)
    requires forall i :: 0 <= i < |text| ==> IsScalar(text[i])
    ensures ValidUtf8(EncodeText(text))
  {
    if text != [] {
      EncodedIsValid(text[1..]);
      EncodedScalarIsValid(text[0], EncodeText(text[1..]));
    }
  }

  lemma {:induction false} ValidIsEncoded(b: seq<byte>) returns (text: seq<int>)
    requires ValidUtf8(b)
    ensures (forall i :: 0 <= i < |text| ==> IsScalar(text[i])) && EncodeText(text) == b
    decreases |b|
  {
    if b == [] {
      text := [];
    } else {
      var c, rest := FirstScalar(b);
      var more := ValidIsEncoded(rest);
      text := [c] + more;
      assert text[1..] == more;
    }
  }

  ghost predicate EncodesText(b: seq<byte>) {
    exists text: seq<int> :: (forall i :: 0 <= i < |text| ==> IsScalar(text[i])) && EncodeText(text) == b
  }

  /** The bytes accepted as a path are exactly the encodings of texts. */
  lemma Utf8Exact(b: seq<byte>)
    ensures ValidUtf8(b) <==> EncodesText(b)
  {
    if ValidUtf8(b) {
      var text := ValidIsEncoded(b);
    }
    if EncodesText(b) {
      var text: seq<int> :| (forall i :: 0 <= i < |text| ==> IsScalar(text[i])) && EncodeText(text) == b;
      EncodedIsValid(text);
    }
  }
}
