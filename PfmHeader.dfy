/**
 * The PFM header rewrite in `ImageStore.loadFromPath` (store/ImageStore.kt):
 * the first three lines of a PFM file are copied with one trailing space per
 * line removed, the rest of the file follows unchanged, and the buffer keeps
 * its original size, so the tail is padded with zero bytes.
 *
 * Bytes are the unsigned values 0..255; the source's signed `Byte`s have the
 * same bit patterns and are only compared for equality.
 */
module PfmHeader {
  import opened Wrappers

  type byte = b: int | 0 <= b < 256

  const NL: byte := 10
  const SP: byte := 32
  /** The number of header lines the loop reads. */
  const HeaderLines: nat := 3

  /** The exception the source raises when the header runs past the end of the file. */
  datatype Failure = ArrayIndexOutOfBounds

  // ---------------------------------------------------------------------------
  // Lines of a byte sequence

  /** Regrouping a concatenation. */
  lemma AppendAssoc(a: seq<byte>, b: seq<byte>, c: seq<byte>)
    ensures a + (b + c) == a + b + c
  {
  }

  /** The number of newline bytes in `s`. */
  function CountNL(s: seq<byte>): nat
  {
    if s == [] then 0 else (if s[0] == NL then 1 else 0) + CountNL(s[1..])
  }

  lemma {:induction false} CountNLConcat(a: seq<byte>, b: seq<byte>)
    ensures CountNL(a + b) == CountNL(a) + CountNL(b)
  {
    if a != [] {
      assert (a + b)[0] == a[0];
      assert (a + b)[1..] == a[1..] + b;
      CountNLConcat(a[1..], b);
    } else {
      assert a + b == b;
    }
  }

  lemma {:induction false} CountNLNone(s: seq<byte>)
    requires NL !in s
    ensures CountNL(s) == 0
  {
    if s != [] {
      CountNLNone(s[1..]);
    }
  }

  lemma {:induction false} CountNLSome(s: seq<byte>)
    requires CountNL(s) > 0
    ensures NL in s
  {
    if s[0] != NL {
      CountNLSome(s[1..]);
    }
  }

  /** A prefix holds at most as many newlines as the whole. */
  lemma CountNLPrefix(s: seq<byte>, p: nat)
    requires p <= |s|
    ensures CountNL(s[..p]) <= CountNL(s)
  {
    assert s == s[..p] + s[p..];
    CountNLConcat(s[..p], s[p..]);
  }

  /** The bytes of `s` before its first newline. */
  function FirstLine(s: seq<byte>): (l: seq<byte>)
    requires NL in s
    ensures NL !in l && |l| < |s|
  {
    if s[0] == NL then [] else [s[0]] + FirstLine(s[1..])
  }

  /** The bytes of `s` after its first newline. */
  function Rest(s: seq<byte>): (r: seq<byte>)
    requires NL in s
    ensures |r| < |s|
  {
    if s[0] == NL then s[1..] else Rest(s[1..])
  }

  /** A byte sequence holding a newline is its first line, that newline and the rest. */
  lemma {:induction false} SplitFirst(s: seq<byte>)
    requires NL in s
    ensures s == FirstLine(s) + [NL] + Rest(s)
  {
    if s[0] == NL {
      assert s == [] + [NL] + s[1..];
    } else {
      SplitFirst(s[1..]);
      AppendAssoc([s[0]], FirstLine(s[1..]), [NL]);
      AppendAssoc([s[0]], FirstLine(s[1..]) + [NL], Rest(s[1..]));
      assert s == [s[0]] + s[1..];
    }
  }

  /** A line and its newline, then `rest`, hold one newline more than `rest`. */
  lemma LineCount(l: seq<byte>, rest: seq<byte>)
    requires NL !in l
    ensures CountNL(l + [NL] + rest) == CountNL(rest) + 1
  {
    CountNLNone(l);
    CountNLConcat(l + [NL], rest);
    CountNLConcat(l, [NL]);
  }

  lemma CountRest(s: seq<byte>)
    requires CountNL(s) > 0
    ensures NL in s && CountNL(Rest(s)) == CountNL(s) - 1
    ensures |FirstLine(s)| + 1 + |Rest(s)| == |s|
  {
    CountNLSome(s);
    SplitFirst(s);
    LineCount(FirstLine(s), Rest(s));
  }

  /** The first line of a line followed by `rest` is that line, and what follows is `rest`. */
  lemma {:induction false} FirstLineOf(l: seq<byte>, rest: seq<byte>)
    requires NL !in l
    ensures NL in l + [NL] + rest
    ensures FirstLine(l + [NL] + rest) == l && Rest(l + [NL] + rest) == rest
  {
    var s := l + [NL] + rest;
    assert s[|l|] == NL;
    if l == [] {
      assert s[1..] == rest;
    } else {
      assert s[0] == l[0];
      assert s[1..] == l[1..] + [NL] + rest;
      FirstLineOf(l[1..], rest);
      assert [l[0]] + l[1..] == l;
    }
  }

  /** Taking a prefix that ends after the first line. */
  lemma TakeAfterLine(l: seq<byte>, rest: seq<byte>, n: nat)
    requires n <= |rest|
    ensures (l + [NL] + rest)[..|l| + 1 + n] == l + [NL] + rest[..n]
  {
  }

  /** The first `k` lines of `s`, each with its newline. */
  function Header(s: seq<byte>, k: nat): (h: seq<byte>)
    requires CountNL(s) >= k
    ensures |h| <= |s|
    decreases k
  {
    if k == 0 then []
    else
      CountRest(s);
      FirstLine(s) + [NL] + Header(Rest(s), k - 1)
  }

  /** The header is a prefix of `s`. */
  lemma {:induction false} HeaderIsPrefix(s: seq<byte>, k: nat)
    requires CountNL(s) >= k
    ensures Header(s, k) == s[..|Header(s, k)|]
    decreases k
  {
    if k > 0 {
      CountRest(s);
      SplitFirst(s);
      var l, rest := FirstLine(s), Rest(s);
      HeaderIsPrefix(rest, k - 1);
      var h' := Header(rest, k - 1);
      assert Header(s, k) == l + [NL] + h';
      TakeAfterLine(l, rest, |h'|);
    }
  }

  /** The header holds exactly `k` newlines. */
  lemma {:induction false} HeaderCountNL(s: seq<byte>, k: nat)
    requires CountNL(s) >= k
    ensures CountNL(Header(s, k)) == k
    decreases k
  {
    if k > 0 {
      CountRest(s);
      HeaderCountNL(Rest(s), k - 1);
      assert Header(s, k) == FirstLine(s) + [NL] + Header(Rest(s), k - 1);
      LineCount(FirstLine(s), Header(Rest(s), k - 1));
    }
  }

  lemma HeaderCount(s: seq<byte>, k: nat)
    requires CountNL(s) >= k
    ensures CountNL(s[..|Header(s, k)|]) == k
  {
    HeaderIsPrefix(s, k);
    HeaderCountNL(s, k);
  }

  /** No prefix shorter than the header holds `k` newlines. */
  lemma {:induction false} HeaderMinimal(s: seq<byte>, k: nat, p: nat)
    requires CountNL(s) >= k
    requires p <= |Header(s, k)| && CountNL(s[..p]) >= k
    ensures p == |Header(s, k)|
    decreases k
  {
    if k > 0 {
      CountRest(s);
      SplitFirst(s);
      var l, rest := FirstLine(s), Rest(s);
      var h' := Header(rest, k - 1);
      assert |Header(s, k)| == |l| + 1 + |h'|;
      if p <= |l| {
        assert s[..p] == l[..p];
        CountNLNone(l[..p]);
        assert false;
      } else {
        var p' := p - |l| - 1;
        TakeAfterLine(l, rest, p');
        LineCount(l, rest[..p']);
        assert CountNL(rest[..p']) >= k - 1;
        HeaderMinimal(rest, k - 1, p');
      }
    }
  }

  /** A header line with one trailing space dropped, and its newline. */
  function StripLine(l: seq<byte>): (r: seq<byte>)
    ensures |l| > 0 && l[|l| - 1] == SP ==> r == l[..|l| - 1] + [NL]
    ensures !(|l| > 0 && l[|l| - 1] == SP) ==> r == l + [NL]
  {
    (if |l| > 0 && l[|l| - 1] == SP then l[..|l| - 1] else l) + [NL]
  }

  /** The first `k` lines of `s`, each passed through StripLine. */
  function CleanHeader(s: seq<byte>, k: nat): (r: seq<byte>)
    requires CountNL(s) >= k
    ensures |r| <= |Header(s, k)|
    decreases k
  {
    if k == 0 then []
    else
      CountRest(s);
      StripLine(FirstLine(s)) + CleanHeader(Rest(s), k - 1)
  }

  function Zeros(n: nat): (z: seq<byte>)
    ensures |z| == n && forall i :: 0 <= i < n ==> z[i] == 0
  {
    seq(n, _ => 0)
  }

  /**
   * What the source's buffer holds once the header is rewritten: the cleaned
   * header, then the rest of the file, then one zero byte per space removed.
   */
  function Rewritten(file: seq<byte>): (r: seq<byte>)
    requires CountNL(file) >= HeaderLines
    ensures |r| == |file|
  {
    var h := Header(file, HeaderLines);
    var c := CleanHeader(file, HeaderLines);
    c + file[|h|..] + Zeros(|h| - |c|)
  }

  // ---------------------------------------------------------------------------
  // The byte-by-byte loop, as a fold

  /** What the loop does with one header byte: a newline overwrites a space just written. */
  function Step(out: seq<byte>, b: byte): seq<byte>
  {
    if b == NL && |out| > 0 && out[|out| - 1] == SP then out[..|out| - 1] + [NL] else out + [b]
  }

  /** The bytes written when the loop, having written `out`, consumes `rest`. */
  function FoldFrom(out: seq<byte>, rest: seq<byte>): seq<byte>
    decreases |rest|
  {
    if rest == [] then out else FoldFrom(Step(out, rest[0]), rest[1..])
  }

  /** Consuming `a` and then `b` is consuming `a + b`. */
  lemma {:induction false} FoldFromConcat(out: seq<byte>, a: seq<byte>, b: seq<byte>)
    ensures FoldFrom(out, a + b) == FoldFrom(FoldFrom(out, a), b)
    decreases |a|
  {
    if a == [] {
      assert a + b == b;
    } else {
      assert (a + b)[0] == a[0];
      assert (a + b)[1..] == a[1..] + b;
      FoldFromConcat(Step(out, a[0]), a[1..], b);
    }
  }

  /** Bytes other than newlines are copied as they are. */
  lemma {:induction false} FoldNoNewline(out: seq<byte>, l: seq<byte>)
    requires NL !in l
    ensures FoldFrom(out, l) == out + l
    decreases |l|
  {
    if l == [] {
      assert out + l == out;
    } else {
      FoldNoNewline(out + [l[0]], l[1..]);
      AppendAssoc(out, [l[0]], l[1..]);
      assert [l[0]] + l[1..] == l;
    }
  }

  /** After a whole line, the loop has written it stripped of one trailing space. */
  lemma FoldLine(out: seq<byte>, l: seq<byte>)
    requires NL !in l
    requires out == [] || out[|out| - 1] == NL
    ensures FoldFrom(out, l + [NL]) == out + StripLine(l)
  {
    FoldFromConcat(out, l, [NL]);
    FoldNoNewline(out, l);
    FoldOne(out + l, NL);
    if |l| > 0 && l[|l| - 1] == SP {
      assert (out + l)[|out + l| - 1] == SP;
      assert (out + l)[..|out + l| - 1] == out + l[..|l| - 1];
      AppendAssoc(out, l[..|l| - 1], [NL]);
    } else {
      assert |out + l| > 0 ==> (out + l)[|out + l| - 1] != SP;
      AppendAssoc(out, l, [NL]);
    }
  }

  lemma FoldOne(out: seq<byte>, b: byte)
    ensures FoldFrom(out, [b]) == Step(out, b)
  {
    assert [b][1..] == [];
  }

  /** Over whole header lines, the loop writes exactly the cleaned header. */
  lemma {:induction false} FoldHeader(out: seq<byte>, s: seq<byte>, k: nat)
    requires CountNL(s) >= k
    requires out == [] || out[|out| - 1] == NL
    ensures FoldFrom(out, Header(s, k)) == out + CleanHeader(s, k)
    decreases k
  {
    if k == 0 {
      assert out + [] == out;
    } else {
      CountRest(s);
      var out' := out + StripLine(FirstLine(s));
      assert out'[|out'| - 1] == NL;
      FoldHeader(out', Rest(s), k - 1);
      FoldHeaderStep(out, s, k);
    }
  }

  /** One more line on top of the first `k - 1` lines of the rest. */
  lemma FoldHeaderStep(out: seq<byte>, s: seq<byte>, k: nat)
    requires k >= 1 && CountNL(s) >= k && NL in s
    requires out == [] || out[|out| - 1] == NL
    requires CountNL(Rest(s)) >= k - 1
    requires FoldFrom(out + StripLine(FirstLine(s)), Header(Rest(s), k - 1)) ==
      out + StripLine(FirstLine(s)) + CleanHeader(Rest(s), k - 1)
    ensures FoldFrom(out, Header(s, k)) == out + CleanHeader(s, k)
  {
    var l, rest := FirstLine(s), Rest(s);
    FoldLineThen(out, l, Header(rest, k - 1), CleanHeader(rest, k - 1));
    AppendAssoc(out, StripLine(l), CleanHeader(rest, k - 1));
    assert Header(s, k) == l + [NL] + Header(rest, k - 1);
    assert CleanHeader(s, k) == StripLine(l) + CleanHeader(rest, k - 1);
  }

  lemma FoldLineThen(out: seq<byte>, l: seq<byte>, h: seq<byte>, c: seq<byte>)
    requires NL !in l
    requires out == [] || out[|out| - 1] == NL
    requires FoldFrom(out + StripLine(l), h) == out + StripLine(l) + c
    ensures FoldFrom(out, l + [NL] + h) == out + (StripLine(l) + c)
  {
    FoldFromConcat(out, l + [NL], h);
    FoldLine(out, l);
    AppendAssoc(out, StripLine(l), c);
  }


  /** Reading one more byte of the file: one more step of the count and of the fold. */
  lemma ReadOne(file: seq<byte>, i: nat)
    requires i < |file|
    ensures CountNL(file[..i + 1]) == CountNL(file[..i]) + (if file[i] == NL then 1 else 0)
    ensures FoldFrom([], file[..i + 1]) == Step(FoldFrom([], file[..i]), file[i])
  {
    assert file[..i + 1] == file[..i] + [file[i]];
    CountNLConcat(file[..i], [file[i]]);
    FoldFromConcat([], file[..i], [file[i]]);
  }

  // ---------------------------------------------------------------------------
  // The source's loop

  /**
   * Reads `file` (what `FileInputStream` yields: its bytes, then -1 for ever)
   * into a buffer of the file's size, rewriting the three header lines.
   */
  method RewriteHeader(file: seq<byte>) returns (r: Result<seq<byte>, Failure>)
    ensures r.Ok? <==> CountNL(file) >= HeaderLines
    ensures r.Ok? ==> r.value == Rewritten(file)
  {
    var allBytes := new byte[|file|](_ => 0);
    var read := ReadHeaderLines(file, allBytes);
    if read.Err? {
      return Err(read.error);
    }
    var (fisPos, bytesPos) := read.value;
    ghost var header := allBytes[..bytesPos];
    ReadNBytes(file, fisPos, allBytes, bytesPos);
    assert allBytes[..] == header + file[fisPos..] + Zeros(fisPos - bytesPos);
    r := Ok(allBytes[..]);
  }

  /**
   * The `while (lineCount < 3)` loop: returns how far it read the file and
   * how far it wrote the buffer.
   */
  method ReadHeaderLines(file: seq<byte>, allBytes: array<byte>) returns (r: Result<(nat, nat), Failure>)
    requires allBytes.Length == |file|
    requires forall k :: 0 <= k < allBytes.Length ==> allBytes[k] == 0
    modifies allBytes
    ensures r.Ok? <==> CountNL(file) >= HeaderLines
    ensures r.Ok? ==> r.value.0 == |Header(file, HeaderLines)| && r.value.1 <= r.value.0
    ensures r.Ok? ==> allBytes[..r.value.1] == CleanHeader(file, HeaderLines)
    ensures r.Ok? ==> forall k :: r.value.1 <= k < allBytes.Length ==> allBytes[k] == 0
  {
    var totalSize := |file|;
    var lineCount := 0;
    var fisPos := 0;
    var bytesPos := 0;
    // the length of the header, when the file has one
    ghost var headerLen := 0;
    if CountNL(file) >= HeaderLines {
      headerLen := |Header(file, HeaderLines)|;
      HeaderCount(file, HeaderLines);
    }
    assert allBytes[..0] == [] && file[..0] == [];
    while lineCount < 3
      invariant ReadInv(file, allBytes[..], fisPos, bytesPos, lineCount, headerLen)
      decreases 2 * totalSize + 1 - fisPos
    {
      var value := if fisPos < totalSize then file[fisPos] else -1;
      ghost var before := allBytes[..];
      ReadNotPastHeader(file, before, fisPos, bytesPos, lineCount, headerLen);
      var written := Emit(allBytes, bytesPos, value);
      if written.Err? {
        return Err(written.error);
      }
      ReadStep(file, before, allBytes[..], fisPos, bytesPos, written.value, lineCount, headerLen);
      if value == 10 {
        lineCount := lineCount + 1;
      }
      bytesPos := written.value;
      fisPos := fisPos + 1;
    }
    ReadDone(file, allBytes[..], fisPos, bytesPos, headerLen);
    r := Ok((fisPos, bytesPos));
  }

  /** The loop's invariant, over the buffer's contents `buf`. */
  ghost predicate ReadInv(file: seq<byte>, buf: seq<byte>, fisPos: nat, bytesPos: nat, lineCount: nat, headerLen: nat)
  {
    |buf| == |file| &&
    bytesPos <= fisPos && bytesPos <= |file| && fisPos <= bytesPos + |file| &&
    (fisPos <= |file| ==>
      lineCount == CountNL(file[..fisPos]) && buf[..bytesPos] == FoldFrom([], file[..fisPos])) &&
    (fisPos > |file| ==> lineCount == CountNL(file) < HeaderLines) &&
    (CountNL(file) >= HeaderLines ==>
      headerLen == |Header(file, HeaderLines)| &&
      fisPos <= headerLen <= |file| && CountNL(file[..headerLen]) == HeaderLines) &&
    (forall k :: bytesPos <= k < |file| ==> buf[k] == 0)
  }

  /** While fewer than three newlines are read, a file with a header has bytes left to read. */
  lemma ReadNotPastHeader(file: seq<byte>, buf: seq<byte>, fisPos: nat, bytesPos: nat, lineCount: nat, headerLen: nat)
    requires ReadInv(file, buf, fisPos, bytesPos, lineCount, headerLen) && lineCount < HeaderLines
    ensures CountNL(file) >= HeaderLines ==> bytesPos <= fisPos < headerLen <= |file|
  {
  }

  /** One iteration of the loop keeps its invariant. */
  lemma ReadStep(file: seq<byte>, buf: seq<byte>, buf': seq<byte>, fisPos: nat, bytesPos: nat, bytesPos': nat,
                 lineCount: nat, headerLen: nat)
    requires ReadInv(file, buf, fisPos, bytesPos, lineCount, headerLen) && lineCount < HeaderLines
    requires Emitted(buf, buf', bytesPos, bytesPos', if fisPos < |file| then file[fisPos] else -1)
    ensures ReadInv(file, buf', fisPos + 1, bytesPos',
                    lineCount + (if fisPos < |file| && file[fisPos] == NL then 1 else 0), headerLen)
  {
    if fisPos < |file| {
      ReadOne(file, fisPos);
      EmitIsStep(buf, buf', bytesPos, bytesPos', file[fisPos]);
    } else if fisPos == |file| {
      assert file[..fisPos] == file;
    }
  }

  /** When the loop stops, it has read exactly the header and written the cleaned header. */
  lemma ReadDone(file: seq<byte>, buf: seq<byte>, fisPos: nat, bytesPos: nat, headerLen: nat)
    requires ReadInv(file, buf, fisPos, bytesPos, HeaderLines, headerLen)
    ensures CountNL(file) >= HeaderLines
    ensures fisPos == |Header(file, HeaderLines)| && bytesPos <= fisPos
    ensures buf[..bytesPos] == CleanHeader(file, HeaderLines)
    ensures forall k :: bytesPos <= k < |buf| ==> buf[k] == 0
  {
    assert fisPos <= |file|;
    CountNLPrefix(file, fisPos);
    HeaderMinimal(file, HeaderLines, fisPos);
    HeaderIsPrefix(file, HeaderLines);
    FoldHeader([], file, HeaderLines);
    assert [] + CleanHeader(file, HeaderLines) == CleanHeader(file, HeaderLines);
  }

  /** The source's `Byte` conversion of a value read from the stream (-1 at its end). */
  function ToByte(value: int): byte
    requires -1 <= value < 256
  {
    if value < 0 then value + 256 else value
  }

  /** Whether `value` overwrites a space just written rather than being stored after it. */
  predicate Replaces(buf: seq<byte>, pos: nat, value: int)
    requires pos <= |buf|
  {
    value == 10 && pos > 0 && buf[pos - 1] == SP
  }

  /** `after` is `before` with `value` written at `pos`, the next free slot becoming `pos'`. */
  ghost predicate Emitted(before: seq<byte>, after: seq<byte>, pos: nat, pos': nat, value: int)
  {
    -1 <= value < 256 && pos <= |before| &&
    if Replaces(before, pos, value) then pos' == pos && after == before[pos - 1 := NL]
    else pos < |before| && pos' == pos + 1 && after == before[pos := ToByte(value)]
  }

  /**
   * One byte of the loop's output: a newline read just after a space overwrites
   * it; any other value is stored at `bytesPos`, which fails past the buffer's end.
   */
  method Emit(allBytes: array<byte>, bytesPos: nat, value: int) returns (r: Result<nat, Failure>)
    requires bytesPos <= allBytes.Length && -1 <= value < 256
    modifies allBytes
    ensures r.Err? <==> !Replaces(old(allBytes[..]), bytesPos, value) && bytesPos == allBytes.Length
    ensures r.Err? ==> r.error == ArrayIndexOutOfBounds
    ensures r.Ok? ==> Emitted(old(allBytes[..]), allBytes[..], bytesPos, r.value, value)
  {
    if value == 10 && bytesPos > 0 && allBytes[bytesPos - 1] == SP {
      allBytes[bytesPos - 1] := NL;
      r := Ok(bytesPos);
    } else {
      if bytesPos >= allBytes.Length {
        return Err(ArrayIndexOutOfBounds);
      }
      allBytes[bytesPos] := ToByte(value);
      r := Ok(bytesPos + 1);
    }
  }

  /** What Emit does to the buffer is one Step of the fold, and it leaves the tail zero. */
  lemma EmitIsStep(before: seq<byte>, after: seq<byte>, pos: nat, pos': nat, b: byte)
    requires Emitted(before, after, pos, pos', b)
    requires forall k :: pos <= k < |before| ==> before[k] == 0
    ensures after[..pos'] == Step(before[..pos], b)
    ensures forall k :: pos' <= k < |after| ==> after[k] == 0
  {
    if Replaces(before, pos, b) {
      assert after[..pos'] == before[..pos][..pos - 1] + [NL];
    } else {
      assert after[..pos'] == before[..pos] + [b];
    }
  }

  /** `readNBytes(allBytes, off, |file| - from)`: the rest of the file, copied to `off`. */
  method ReadNBytes(file: seq<byte>, from: nat, allBytes: array<byte>, off: nat)
    requires off <= from <= |file| == allBytes.Length
    modifies allBytes
    ensures allBytes[..] == old(allBytes[..off]) + file[from..] + old(allBytes[off + |file| - from..])
  {
    forall k | 0 <= k < |file| - from {
      allBytes[off + k] := file[from + k];
    }
  }

  // ---------------------------------------------------------------------------
  // What the rewrite promises

  /** A file whose header lines are `l1`, `l2`, `l3` and whose remainder is `rest`. */
  function PfmFile(l1: seq<byte>, l2: seq<byte>, l3: seq<byte>, rest: seq<byte>): seq<byte>
  {
    l1 + [NL] + l2 + [NL] + l3 + [NL] + rest
  }

  /** How many of the given lines end in a space. */
  function Trailing(l1: seq<byte>, l2: seq<byte>, l3: seq<byte>): nat
  {
    (if |l1| > 0 && l1[|l1| - 1] == SP then 1 else 0) +
    (if |l2| > 0 && l2[|l2| - 1] == SP then 1 else 0) +
    (if |l3| > 0 && l3[|l3| - 1] == SP then 1 else 0)
  }

  /**
   * Line by line: each header line loses one trailing space, the rest of the
   * file is copied unchanged, and the buffer is padded with one zero per
   * space removed.
   */
  lemma RewrittenByLines(l1: seq<byte>, l2: seq<byte>, l3: seq<byte>, rest: seq<byte>)
    requires NL !in l1 && NL !in l2 && NL !in l3
    ensures CountNL(PfmFile(l1, l2, l3, rest)) >= HeaderLines
    ensures Rewritten(PfmFile(l1, l2, l3, rest)) ==
      StripLine(l1) + StripLine(l2) + StripLine(l3) + rest + Zeros(Trailing(l1, l2, l3))
  {
    var f := PfmFile(l1, l2, l3, rest);
    PfmHeaderLines(l1, l2, l3, rest);
    var h := Header(f, HeaderLines);
    var c := CleanHeader(f, HeaderLines);
    assert f[|h|..] == rest;
    StripLineLength(l1);
    StripLineLength(l2);
    StripLineLength(l3);
    assert |h| - |c| == Trailing(l1, l2, l3);
  }

  /** The header of a PFM file is its three lines; the cleaned header is those lines stripped. */
  lemma PfmHeaderLines(l1: seq<byte>, l2: seq<byte>, l3: seq<byte>, rest: seq<byte>)
    requires NL !in l1 && NL !in l2 && NL !in l3
    ensures CountNL(PfmFile(l1, l2, l3, rest)) >= HeaderLines
    ensures PfmFile(l1, l2, l3, rest) == Header(PfmFile(l1, l2, l3, rest), HeaderLines) + rest
    ensures |Header(PfmFile(l1, l2, l3, rest), HeaderLines)| == |l1| + |l2| + |l3| + 3
    ensures CleanHeader(PfmFile(l1, l2, l3, rest), HeaderLines) == StripLine(l1) + StripLine(l2) + StripLine(l3)
  {
    var f3 := l3 + [NL] + rest;
    var f2 := l2 + [NL] + f3;
    var f := l1 + [NL] + f2;
    assert PfmFile(l1, l2, l3, rest) == f;
    HeaderOfLine(l3, rest, 1);
    HeaderOfLine(l2, f3, 2);
    HeaderOfLine(l1, f2, 3);
    assert Header(rest, 0) == [] && CleanHeader(rest, 0) == [];
    var h3 := l3 + [NL] + [];
    var h2 := l2 + [NL] + h3;
    var h := l1 + [NL] + h2;
    assert Header(f, HeaderLines) == h;
    LineThen(l3, [], rest);
    assert [] + rest == rest;
    assert h3 + rest == f3;
    LineThen(l2, h3, rest);
    assert h2 + rest == f2;
    LineThen(l1, h2, rest);
    assert h + rest == f;
    assert StripLine(l3) + [] == StripLine(l3);
    AppendAssoc(StripLine(l1), StripLine(l2), StripLine(l3));
  }

  /** A line, its newline and `x`, followed by `rest`. */
  lemma LineThen(l: seq<byte>, x: seq<byte>, rest: seq<byte>)
    ensures l + [NL] + x + rest == l + [NL] + (x + rest)
  {
    AppendAssoc(l + [NL], x, rest);
  }

  /** StripLine removes one byte exactly when the line ends in a space, and adds the newline. */
  lemma StripLineLength(l: seq<byte>)
    ensures |StripLine(l)| == |l| + 1 - (if |l| > 0 && l[|l| - 1] == SP then 1 else 0)
  {
  }

  /** The header of a line followed by `rest` is that line and the header of `rest`. */
  lemma HeaderOfLine(l: seq<byte>, rest: seq<byte>, k: nat)
    requires NL !in l && CountNL(rest) >= k - 1 && k > 0
    ensures CountNL(l + [NL] + rest) >= k
    ensures Header(l + [NL] + rest, k) == l + [NL] + Header(rest, k - 1)
    ensures CleanHeader(l + [NL] + rest, k) == StripLine(l) + CleanHeader(rest, k - 1)
  {
    LineCount(l, rest);
    FirstLineOf(l, rest);
  }
}
