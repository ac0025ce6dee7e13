/**
 * Names of the files the booth writes (booth.py:152-154 for each capture,
 * booth.py:247 for the composited strip): `images/Booth<pid>-<session:04d><shot:02d>.jpg`
 * and `images/Booth<pid>-<session:04d>-Strip.jpg`, with Python's decimal and
 * zero-padded formatting written out, and a parser for capture names that
 * shows the naming scheme loses no information.
 */
module Naming {
  import opened Wrappers

  const StoreDir := "images"
  const SavePrefix := "Booth"
  const StripSuffix := "Strip"
  const JpegExtension := ".jpg"

  predicate IsDigit(c: char)
  {
    '0' <= c <= '9'
  }

  predicate AllDigits(s: string)
  {
    forall i :: 0 <= i < |s| ==> IsDigit(s[i])
  }

  function DigitChar(d: nat): (c: char)
    requires d < 10
    ensures IsDigit(c) && c as int - '0' as int == d
  {
    ('0' as int + d) as char
  }

  /** `str(n)` / `'{}'.format(n)`: the decimal digits of `n`, most significant first. */
  function Decimal(n: nat): (s: string)
    ensures |s| >= 1 && AllDigits(s)
    ensures s[0] == '0' ==> n == 0
    decreases n
  {
    if n < 10 then [DigitChar(n)] else Decimal(n / 10) + [DigitChar(n % 10)]
  }

  function Zeros(k: nat): (z: string)
    ensures |z| == k && forall i :: 0 <= i < k ==> z[i] == '0'
    decreases k
  {
    if k == 0 then [] else Zeros(k - 1) + ['0']
  }

  /** `'{:0<width>d}'.format(n)`: the decimal digits padded on the left with zeros to `width`. */
  function ZeroPad(n: nat, width: nat): (s: string)
    ensures AllDigits(s)
    ensures |s| == if |Decimal(n)| < width then width else |Decimal(n)|
  {
    var d := Decimal(n);
    if |d| < width then Zeros(width - |d|) + d else d
  }

  /** `os.path.join(STORE_DIR, file)`. */
  function InStore(file: string): string
  {
    StoreDir + "/" + file
  }

  /** A `.jpg` file in the store directory whose name starts with the save prefix. */
  predicate StoredJpeg(name: string)
  {
    && |NamePrefix| + |JpegExtension| < |name|
    && name[..|NamePrefix|] == NamePrefix
    && name[|name| - |JpegExtension|..] == JpegExtension
  }

  /**
   * One replacement field of a format string or the literal text between
   * them: text (a string argument or literal characters), `{n}` of an
   * integer, or `{n:0<width>d}` of an integer.
   */
  datatype Field = Text(text: string) | Number(n: nat) | Padded(value: nat, width: nat)

  function Render(f: Field): string
  {
    match f
    case Text(t) => t
    case Number(n) => Decimal(n)
    case Padded(n, width) => ZeroPad(n, width)
  }

  /** `str.format`: the renderings of the fields, in order. */
  function Format(fields: seq<Field>): string
    decreases |fields|
  {
    if fields == [] then [] else Render(fields[0]) + Format(fields[1..])
  }

  /** Formatting two runs of fields one after the other is formatting them together. */
  lemma {:induction false} FormatAppend(a: seq<Field>, b: seq<Field>)
    ensures Format(a + b) == Format(a) + Format(b)
    decreases |a|
  {
    if a == [] {
      assert a + b == b;
    } else {
      assert (a + b)[1..] == a[1..] + b;
      FormatAppend(a[1..], b);
    }
  }

  /** A single field formats to its rendering. */
  lemma FormatOne(f: Field)
    ensures Format([f]) == Render(f)
  {
    assert [f][1..] == [];
  }

  /** `'{0}{1}-{2:04d}{3:02d}.jpg'.format(SAVE_PREFIX, pid, session, shot)` (booth.py:152-154). */
  function CaptureFields(pid: nat, session: nat, shot: nat): seq<Field>
  {
    [Text(SavePrefix), Number(pid), Text("-"), Padded(session, 4), Padded(shot, 2), Text(JpegExtension)]
  }

  /** `'{0}{1}-{2:04d}-{3}.jpg'.format(SAVE_PREFIX, pid, session, STRIP_SUFFIX)` (booth.py:247). */
  function StripFields(pid: nat, session: nat): seq<Field>
  {
    [Text(SavePrefix), Number(pid), Text("-"), Padded(session, 4), Text("-"), Text(StripSuffix), Text(JpegExtension)]
  }

  /** The file a capture of shot `shot` of session `session` is written to (booth.py:152-154). */
  function CaptureFileName(pid: nat, session: nat, shot: nat): string
  {
    InStore(Format(CaptureFields(pid, session, shot)))
  }

  /** The file the composited strip of session `session` is written to (booth.py:247). */
  function StripFileName(pid: nat, session: nat): string
  {
    InStore(Format(StripFields(pid, session)))
  }

  /** The number a string of decimal digits denotes; leading zeros add nothing. */
  function DigitsValue(s: string): nat
    requires AllDigits(s)
    decreases |s|
  {
    if s == [] then 0 else DigitsValue(s[..|s| - 1]) * 10 + (s[|s| - 1] as int - '0' as int)
  }

  /** How many digits `s` starts with. */
  function DigitRun(s: string): (n: nat)
    ensures n <= |s| && AllDigits(s[..n])
    ensures n < |s| ==> !IsDigit(s[n])
    decreases |s|
  {
    if s == [] || !IsDigit(s[0]) then 0 else 1 + DigitRun(s[1..])
  }

  /** The three numbers a capture file name is built from. */
  datatype CaptureId = CaptureId(pid: nat, session: nat, shot: nat)

  const NamePrefix := InStore(SavePrefix)

  /**
   * Reads a capture file name back: the store prefix, a body, the extension.
   */
  function ParseCaptureName(name: string): Option<CaptureId>
  {
    if |name| < |NamePrefix| + |JpegExtension|
       || name[..|NamePrefix|] != NamePrefix
       || name[|name| - |JpegExtension|..] != JpegExtension
    then None
    else ParseCaptureBody(name[|NamePrefix|..|name| - |JpegExtension|])
  }

  /**
   * The body of a capture name: the digits of the process id up to the
   * first dash, then digits of which the last two are the shot and the rest
   * the session.
   */
  function ParseCaptureBody(body: string): Option<CaptureId>
  {
    var n := DigitRun(body);
    if n == 0 || n == |body| || body[n] != '-' then None
    else
      var rest := body[n + 1..];
      if |rest| < 6 || !AllDigits(rest) then None
      else Some(CaptureId(DigitsValue(body[..n]), DigitsValue(rest[..|rest| - 2]), DigitsValue(rest[|rest| - 2..])))
  }

  /** A name made of the prefix, a body and the extension is parsed by parsing the body. */
  lemma ParseFramed(body: string)
    ensures ParseCaptureName(NamePrefix + body + JpegExtension) == ParseCaptureBody(body)
  {
    var name := NamePrefix + body + JpegExtension;
    assert name[..|NamePrefix|] == NamePrefix;
    assert name[|name| - |JpegExtension|..] == JpegExtension;
    assert name[|NamePrefix|..|name| - |JpegExtension|] == body;
  }

  /** Reading back the decimal digits of `n` gives `n`. */
  lemma {:induction false} DecimalValue(n: nat)
    ensures DigitsValue(Decimal(n)) == n
    decreases n
  {
    if n >= 10 {
      var d := Decimal(n);
      DecimalValue(n / 10);
      assert d[..|d| - 1] == Decimal(n / 10);
    }
  }

  /** Leading zeros do not change the value of a digit string. */
  lemma {:induction false} ZerosValue(k: nat, s: string)
    requires AllDigits(s)
    ensures AllDigits(Zeros(k) + s) && DigitsValue(Zeros(k) + s) == DigitsValue(s)
    decreases |s|, k
  {
    var z := Zeros(k) + s;
    if s == [] {
      assert z == Zeros(k);
      if k > 0 {
        assert z[..|z| - 1] == Zeros(k - 1) + [];
        ZerosValue(k - 1, []);
      }
    } else {
      assert z[..|z| - 1] == Zeros(k) + s[..|s| - 1];
      ZerosValue(k, s[..|s| - 1]);
    }
  }

  /** Reading back a zero-padded number gives the number. */
  lemma ZeroPadValue(n: nat, width: nat)
    ensures DigitsValue(ZeroPad(n, width)) == n
  {
    DecimalValue(n);
    var d := Decimal(n);
    if |d| < width {
      ZerosValue(width - |d|, d);
    }
  }

  /** The leading digits of a digit string followed by a non-digit are exactly that string. */
  lemma {:induction false} DigitRunPrefix(a: string, b: string)
    requires AllDigits(a)
    requires b != [] && !IsDigit(b[0])
    ensures DigitRun(a + b) == |a|
    decreases |a|
  {
    var ab := a + b;
    if a == [] {
      assert ab == b;
    } else {
      assert ab[0] == a[0] && IsDigit(a[0]);
      assert ab[1..] == a[1..] + b;
      assert AllDigits(a[1..]) by {
        forall i | 0 <= i < |a| - 1 ensures IsDigit(a[1..][i]) {
          assert a[1..][i] == a[i + 1];
        }
      }
      DigitRunPrefix(a[1..], b);
      assert DigitRun(ab) == 1 + DigitRun(ab[1..]);
    }
  }

  /** Two digits always suffice for a shot number below 100. */
  lemma TwoDigitShot(shot: nat)
    requires shot < 100
    ensures |ZeroPad(shot, 2)| == 2
  {
    if shot >= 10 {
      assert |Decimal(shot / 10)| == 1;
    }
  }

  /** The digits before a dash, the dash and what follows can be told apart again. */
  lemma SplitAtDash(d: string, rest: string)
    requires |d| >= 1 && AllDigits(d)
    ensures var body := d + "-" + rest;
      && DigitRun(body) == |d| && body[|d|] == '-'
      && body[..|d|] == d && body[|d| + 1..] == rest
  {
    var body := d + "-" + rest;
    assert body == d + ("-" + rest);
    DigitRunPrefix(d, "-" + rest);
  }

  /** Six fields format to their six renderings. */
  lemma FormatSix(a: Field, b: Field, c: Field, d: Field, e: Field, f: Field)
    ensures Format([a, b, c, d, e, f])
         == Render(a) + (Render(b) + (Render(c) + (Render(d) + (Render(e) + Render(f)))))
  {
    assert [a, b, c, d, e, f] == [a] + ([b] + ([c] + ([d] + ([e] + [f]))));
    FormatAppend([e], [f]); FormatOne(e); FormatOne(f);
    FormatAppend([d], [e] + [f]); FormatOne(d);
    FormatAppend([c], [d] + ([e] + [f])); FormatOne(c);
    FormatAppend([b], [c] + ([d] + ([e] + [f]))); FormatOne(b);
    FormatAppend([a], [b] + ([c] + ([d] + ([e] + [f])))); FormatOne(a);
  }

  /** Seven fields format to their seven renderings. */
  lemma FormatSeven(a: Field, b: Field, c: Field, d: Field, e: Field, f: Field, g: Field)
    ensures Format([a, b, c, d, e, f, g])
         == Render(a) + (Render(b) + (Render(c) + (Render(d) + (Render(e) + (Render(f) + Render(g))))))
  {
    assert [a, b, c, d, e, f, g] == [a] + [b, c, d, e, f, g];
    FormatAppend([a], [b, c, d, e, f, g]); FormatOne(a);
    FormatSix(b, c, d, e, f, g);
  }

  /** The store path of the save prefix, an id, a dash, a rest and the extension, regrouped. */
  lemma Regroup(id: string, rest: string)
    ensures InStore(SavePrefix + (id + ("-" + (rest + JpegExtension))))
         == NamePrefix + (id + "-" + rest) + JpegExtension
  {
  }

  /** The session digits, a dash, the strip suffix and the extension, regrouped. */
  lemma StripTail(session: string)
    ensures session + ("-" + (StripSuffix + JpegExtension)) == (session + "-" + StripSuffix) + JpegExtension
  {
  }

  /**
   * A capture name is the store prefix, the process id, a dash, the session
   * padded to four digits and the shot padded to two, and the extension.
   */
  lemma CaptureNameShape(pid: nat, session: nat, shot: nat)
    ensures CaptureFileName(pid, session, shot)
         == NamePrefix + (Decimal(pid) + "-" + (ZeroPad(session, 4) + ZeroPad(shot, 2))) + JpegExtension
  {
    FormatSix(Text(SavePrefix), Number(pid), Text("-"), Padded(session, 4), Padded(shot, 2), Text(JpegExtension));
    Regroup(Decimal(pid), ZeroPad(session, 4) + ZeroPad(shot, 2));
  }

  /**
   * A strip name is the store prefix, the process id, a dash, the session
   * padded to four digits, a dash and the strip suffix, and the extension.
   */
  lemma StripNameShape(pid: nat, session: nat)
    ensures StripFileName(pid, session)
         == NamePrefix + (Decimal(pid) + "-" + (ZeroPad(session, 4) + "-" + StripSuffix)) + JpegExtension
  {
    FormatSeven(Text(SavePrefix), Number(pid), Text("-"), Padded(session, 4), Text("-"), Text(StripSuffix), Text(JpegExtension));
    StripTail(ZeroPad(session, 4));
    Regroup(Decimal(pid), ZeroPad(session, 4) + "-" + StripSuffix);
  }

  /** The body of a name between the store prefix and the extension, when it is not empty, frames a stored `.jpg`. */
  lemma Framed(body: string)
    requires |body| > 0
    ensures StoredJpeg(NamePrefix + body + JpegExtension)
  {
  }

  /** Every capture is written as a `.jpg` in the store directory, its name starting with the save prefix. */
  lemma CaptureIsStoredJpeg(pid: nat, session: nat, shot: nat)
    ensures StoredJpeg(CaptureFileName(pid, session, shot))
  {
    CaptureNameShape(pid, session, shot);
    Framed(Decimal(pid) + "-" + (ZeroPad(session, 4) + ZeroPad(shot, 2)));
  }

  /** The strip is written as a `.jpg` in the store directory, its name starting with the save prefix. */
  lemma StripIsStoredJpeg(pid: nat, session: nat)
    ensures StoredJpeg(StripFileName(pid, session))
  {
    StripNameShape(pid, session);
    Framed(Decimal(pid) + "-" + (ZeroPad(session, 4) + "-" + StripSuffix));
  }

  /** The body of every capture name reads back as the numbers it was built from. */
  lemma CaptureBodyRoundTrip(pid: nat, session: nat, shot: nat)
    requires shot < 100
    ensures ParseCaptureBody(Decimal(pid) + "-" + (ZeroPad(session, 4) + ZeroPad(shot, 2)))
         == Some(CaptureId(pid, session, shot))
  {
    var d, s4, s2 := Decimal(pid), ZeroPad(session, 4), ZeroPad(shot, 2);
    var rest := s4 + s2;
    SplitAtDash(d, rest);
    TwoDigitShot(shot);
    assert rest[..|rest| - 2] == s4 && rest[|rest| - 2..] == s2;
    assert AllDigits(rest);
    DecimalValue(pid);
    ZeroPadValue(session, 4);
    ZeroPadValue(shot, 2);
  }

  /** Every capture name reads back as the numbers it was built from (shot numbers below 100). */
  lemma CaptureNameRoundTrip(pid: nat, session: nat, shot: nat)
    requires shot < 100
    ensures ParseCaptureName(CaptureFileName(pid, session, shot)) == Some(CaptureId(pid, session, shot))
  {
    CaptureNameShape(pid, session, shot);
    ParseFramed(Decimal(pid) + "-" + (ZeroPad(session, 4) + ZeroPad(shot, 2)));
    CaptureBodyRoundTrip(pid, session, shot);
  }

  /** Different captures (shot numbers below 100) never share a file name. */
  lemma CaptureNamesDistinct(a: CaptureId, b: CaptureId)
    requires a.shot < 100 && b.shot < 100 && a != b
    ensures CaptureFileName(a.pid, a.session, a.shot) != CaptureFileName(b.pid, b.session, b.shot)
  {
    CaptureNameRoundTrip(a.pid, a.session, a.shot);
    CaptureNameRoundTrip(b.pid, b.session, b.shot);
  }

  /** A strip name never reads as a capture name: after the dash its digits are followed by another dash. */
  lemma StripIsNotACapture(pid: nat, session: nat)
    ensures ParseCaptureName(StripFileName(pid, session)) == None
  {
    var d, s4 := Decimal(pid), ZeroPad(session, 4);
    var rest := s4 + "-" + StripSuffix;
    StripNameShape(pid, session);
    ParseFramed(d + "-" + rest);
    SplitAtDash(d, rest);
    assert rest[|s4|] == '-';
  }

  /** The strip file never overwrites one of the captures. */
  lemma StripNeverOverwritesCapture(pid: nat, session: nat, c: CaptureId)
    requires c.shot < 100
    ensures StripFileName(pid, session) != CaptureFileName(c.pid, c.session, c.shot)
  {
    StripIsNotACapture(pid, session);
    CaptureNameRoundTrip(c.pid, c.session, c.shot);
  }
}
