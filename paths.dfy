/** Image path strings `suits/{suit_id}/{order}.{ext}` and the part of PHP's
    `pathinfo(..., PATHINFO_EXTENSION)` that the image reindexing relies on. */
module Paths {
  import opened Common

  predicate IsDigit(c: char) {
    '0' <= c <= '9'
  }

  /** Decimal digits of `n`: the decimal form of `n / 10` (when there is
      one), then the last digit. */
  function NatToString(n: nat): (r: string)
    ensures |r| > 0
    decreases n, 0
  {
    var d := ['0' + (n % 10) as char];
    if n < 10 then d else IntToString(n / 10) + d
  }

  /** An integer as PHP writes it into a string: decimal, with a leading `-` when negative. */
  function IntToString(i: int): (r: string)
    ensures |r| > 0
    decreases if i < 0 then -i else i, 1
  {
    if i < 0 then "-" + NatToString(-i) else NatToString(i)
  }

  /** A decimal numeral is made of digits only. */
  lemma {:induction false} NatToStringDigits(n: nat)
    ensures forall i :: 0 <= i < |NatToString(n)| ==> IsDigit(NatToString(n)[i])
  {
    if n >= 10 {
      NatToStringDigits(n / 10);
      assert IntToString(n / 10) == NatToString(n / 10);
    }
  }

  /** A decimal integer holds neither a dot nor a slash. */
  lemma IntToStringClean(i: int)
    ensures '.' !in IntToString(i) && '/' !in IntToString(i)
  {
    var n: nat := if i < 0 then -i else i;
    NatToStringDigits(n);
    assert forall c :: c in NatToString(n) ==> IsDigit(c);
  }

  /** The folder of a suit's images: `suits/{suit_id}`. */
  function Folder(suitId: nat): string {
    "suits/" + IntToString(suitId)
  }

  /** The stored path of the image of a suit with a given order: `suits/{suit_id}/{order}.{ext}`. */
  function ImagePath(suitId: nat, order: int, ext: string): string {
    Folder(suitId) + "/" + IntToString(order) + "." + ext
  }

  /** What follows the last occurrence of `c` in `s`, or None when `c` does not occur. */
  function AfterLast(s: string, c: char): (r: Option<string>)
    ensures r.None? <==> c !in s
    ensures r.Some? ==> c !in r.value
    ensures r.Some? ==> forall x :: x in r.value ==> x in s
  {
    if s == [] then None
    else if s[|s| - 1] == c then Some([])
    else
      match AfterLast(s[..|s| - 1], c)
      case None =>
        assert c !in s by { assert forall x :: x in s ==> x in s[..|s| - 1] || x == s[|s| - 1]; }
        None
      case Some(t) => Some(t + [s[|s| - 1]])
  }

  /** The last component of a path (PHP `basename`, for paths without a trailing slash). */
  function Basename(path: string): string {
    match AfterLast(path, '/')
    case Some(b) => b
    case None => path
  }

  /** The extension of a path: what follows the last dot of its last component, or "" when there is none. */
  function Extension(path: string): string {
    match AfterLast(Basename(path), '.')
    case Some(e) => e
    case None => ""
  }

  /** An extension holds neither a dot nor a slash. */
  lemma ExtensionClean(path: string)
    ensures '.' !in Extension(path) && '/' !in Extension(path)
  {
    var base := Basename(path);
    assert '/' !in base;
  }

  lemma {:induction false} AfterLastConcat(a: string, c: char, b: string)
    requires c !in b
    ensures AfterLast(a + [c] + b, c) == Some(b)
  {
    var s := a + [c] + b;
    if b == [] {
      assert s[|s| - 1] == c;
    } else {
      var b' := b[..|b| - 1];
      assert s[..|s| - 1] == a + [c] + b';
      assert s[|s| - 1] == b[|b| - 1] != c;
      AfterLastConcat(a, c, b');
      assert b' + [b[|b| - 1]] == b;
    }
  }

  /** The extension of a path built for an image is the extension it was built
      with, as long as that extension holds no dot and no slash (true of an
      extension taken from a file name). */
  lemma ExtensionOfImagePath(suitId: nat, order: int, ext: string)
    requires '.' !in ext && '/' !in ext
    ensures Extension(ImagePath(suitId, order, ext)) == ext
  {
    var name := IntToString(order) + "." + ext;
    IntToStringClean(order);
    assert ImagePath(suitId, order, ext) == Folder(suitId) + ['/'] + name;
    assert '/' !in name;
    AfterLastConcat(Folder(suitId), '/', name);
    assert Basename(ImagePath(suitId, order, ext)) == name;
    assert name == IntToString(order) + ['.'] + ext;
    AfterLastConcat(IntToString(order), '.', ext);
  }
}
