/**
 The byte stream that the directory hash is computed over: for each file its name, a
 NUL, the decimal length of its contents, a NUL, and the contents.
 */
module HashFraming {
  import opened Texts

  datatype File = File(name: Text, data: Text)

  const NUL: Byte := 0

  function Decimal(n: nat): Text {
    if n < 10 then [48 + n] else Decimal(n / 10) + [48 + n % 10]
  }

  function Frame(f: File): Text { f.name + [NUL] + Decimal(|f.data|) + [NUL] + f.data }

  function Stream(files: seq<File>): Text {
    if files == [] then [] else Frame(files[0]) + Stream(files[1..])
  }

  /** The streaming loop of the hash. */
  method Feed(files: seq<File>) returns (fed: Text)
    ensures fed == Stream(files)
  {
    fed := [];
    for i := 0 to |files|
      invariant fed + Stream(files[i..]) == Stream(files)
    {
      var f := files[i];
      assert files[i..][0] == f && files[i..][1..] == files[i + 1..];
      fed := fed + f.name + [NUL] + Decimal(|f.data|) + [NUL];
      fed := fed + f.data;
    }
  }

  // ---- unique decoding ----

  function Value(digits: Text): int {
    if digits == [] then 0 else 10 * Value(digits[..|digits| - 1]) + digits[|digits| - 1] - 48
  }

  lemma {:induction false} DecimalValue(n: nat)
    ensures Value(Decimal(n)) == n && NUL !in Decimal(n)
  {
    if n < 10 {
      assert Decimal(n)[..0] == [];
    } else {
      DecimalValue(n / 10);
      var d := Decimal(n);
      assert d[..|d| - 1] == Decimal(n / 10);
    }
  }

  /** A NUL-free field is recovered from what follows it. */
  lemma FieldsAgree(a: Text, x: Text, b: Text, y: Text)
    requires NUL !in a && NUL !in b && a + [NUL] + x == b + [NUL] + y
    ensures a == b && x == y
  {
    var s, t := a + [NUL] + x, b + [NUL] + y;
    assert s[|a|] == NUL && t[|b|] == NUL;
    assert forall i | 0 <= i < |a| :: s[i] == a[i] && a[i] in a;
    assert forall i | 0 <= i < |b| :: t[i] == b[i] && b[i] in b;
    assert |a| == |b|;
    assert a == s[..|a|] && b == t[..|b|];
    assert x == s[|a| + 1..] && y == t[|b| + 1..];
  }

  lemma FramesAgree(f: File, g: File, x: Text, y: Text)
    requires NUL !in f.name && NUL !in g.name && Frame(f) + x == Frame(g) + y
    ensures f == g && x == y
  {
    var df, dg := Decimal(|f.data|), Decimal(|g.data|);
    DecimalValue(|f.data|);
    DecimalValue(|g.data|);
    assert Frame(f) + x == f.name + [NUL] + (df + [NUL] + (f.data + x));
    assert Frame(g) + y == g.name + [NUL] + (dg + [NUL] + (g.data + y));
    FieldsAgree(f.name, df + [NUL] + (f.data + x), g.name, dg + [NUL] + (g.data + y));
    FieldsAgree(df, f.data + x, dg, g.data + y);
    assert |f.data| == |g.data|;
    assert f.data == (f.data + x)[..|f.data|] && g.data == (g.data + y)[..|g.data|];
    assert x == (f.data + x)[|f.data|..] && y == (g.data + y)[|g.data|..];
  }

  /** Different lists of files never give the same stream, as long as no name holds a NUL. */
  lemma {:induction false} StreamInjective(a: seq<File>, b: seq<File>)
    requires forall i | 0 <= i < |a| :: NUL !in a[i].name
    requires forall i | 0 <= i < |b| :: NUL !in b[i].name
    ensures Stream(a) == Stream(b) ==> a == b
  {
    if a != [] && b != [] && Stream(a) == Stream(b) {
      FramesAgree(a[0], b[0], Stream(a[1..]), Stream(b[1..]));
      StreamInjective(a[1..], b[1..]);
      assert a == [a[0]] + a[1..] && b == [b[0]] + b[1..];
    }
  }

  /** Without that condition it fails: one file whose name imitates a whole frame. */
  lemma NulInNameCollides()
    ensures var a, b := [File([65], []), File([66], [])], [File([65, NUL, 48, NUL, 66], [])];
            a != b && Stream(a) == Stream(b)
  {
    var a, b := [File([65], []), File([66], [])], [File([65, NUL, 48, NUL, 66], [])];
    assert a[1..] == [File([66], [])] && a[1..][1..] == [] && b[1..] == [];
    assert Decimal(0) == [48];
    assert Frame(a[0]) == [65, NUL, 48, NUL] && Frame(a[1]) == [66, NUL, 48, NUL];
    assert Frame(b[0]) == [65, NUL, 48, NUL, 66, NUL, 48, NUL];
    assert Stream(a[1..]) == Frame(a[1]);
  }
}
