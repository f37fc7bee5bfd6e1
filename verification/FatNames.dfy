/**
  How `read` of fat/fat.c compares a file name with a directory entry: the name is padded with blanks to a
  buffer of twelve characters, and `strncmp` compares as many of them as `strlen` finds at the start of the
  entry, whose name and extension no NUL ends.
 */
module FatNames {
  import opened Options
  import opened Fat16

  const BLANK: byte := 0x20

  /** The first `n` characters, with blanks for those that are missing. */
  function Padded(s: seq<byte>, n: nat): (p: seq<byte>)
    ensures |p| == n
    ensures forall i :: 0 <= i < n ==> p[i] == if i < |s| then s[i] else BLANK
  {
    seq(n, i requires 0 <= i < n => if i < |s| then s[i] else BLANK)
  }

  function Extension(ext: Option<seq<byte>>): seq<byte> {
    if ext == None then [] else ext.value
  }

  /** The buffer `read` fills: eight characters of the name, three of the extension, and one blank more. */
  method FillBuffer(name: seq<byte>, ext: Option<seq<byte>>) returns (namecmp: array<byte>)
    ensures fresh(namecmp) && namecmp[..] == Padded(name, 8) + Padded(Extension(ext), 3) + [BLANK]
  {
    namecmp := new byte[12](_ => BLANK);
    for i := 0 to 8
      invariant forall j :: 0 <= j < i ==> namecmp[j] == Padded(name, 8)[j]
      invariant forall j :: i <= j < 12 ==> namecmp[j] == BLANK
    {
      if i < |name| {
        namecmp[i] := name[i];
      } else {
        namecmp[i] := BLANK;
      }
    }
    if ext != None {
      for i := 0 to 3
        invariant forall j :: 0 <= j < 8 ==> namecmp[j] == Padded(name, 8)[j]
        invariant forall j :: 0 <= j < i ==> namecmp[8 + j] == Padded(ext.value, 3)[j]
        invariant forall j :: 8 + i <= j < 12 ==> namecmp[j] == BLANK
      {
        if i < |ext.value| {
          namecmp[i + 8] := ext.value[i];
        } else {
          namecmp[i + 8] := BLANK;
        }
      }
    }
    assert forall j :: 0 <= j < 3 ==> namecmp[8 + j] == Padded(Extension(ext), 3)[j];
  }

  /** `strlen`, up to the end of the entry. */
  function Strlen(s: seq<byte>): (n: nat)
    ensures n <= |s| && (n < |s| ==> s[n] == 0)
    ensures forall i :: 0 <= i < n ==> s[i] != 0
  {
    if s == [] || s[0] == 0 then 0 else 1 + Strlen(s[1..])
  }

  /** `strncmp(a, b, n) == 0`: it stops at the first difference and at a NUL. */
  predicate StrncmpIsZero(a: seq<byte>, b: seq<byte>, n: nat)
    requires n <= |a| && n <= |b|
    decreases n
  {
    n == 0 || (a[0] == b[0] && (a[0] == 0 || StrncmpIsZero(a[1..], b[1..], n - 1)))
  }

  /** The comparison of an entry with the buffer, behind which the memory holds `behind`. */
  predicate Compares(e: Entry, namecmp: seq<byte>, behind: seq<byte>) {
    && Strlen(e.raw) <= |namecmp + behind|
    && StrncmpIsZero(e.raw, namecmp + behind, Strlen(e.raw))
  }

  lemma {:induction false} StrncmpIff(a: seq<byte>, b: seq<byte>, n: nat)
    requires n <= |a| && n <= |b| && forall i :: 0 <= i < n ==> a[i] != 0
    ensures StrncmpIsZero(a, b, n) <==> a[..n] == b[..n]
    decreases n
  {
    if n > 0 {
      StrncmpIff(a[1..], b[1..], n - 1);
      assert a[..n] == [a[0]] + a[1..][..n - 1] && b[..n] == [b[0]] + b[1..][..n - 1];
    }
  }

  /** Entry and buffer compare equal exactly when the entry, up to its first NUL, is a prefix of the buffer and
      what lies behind it. */
  lemma ComparesIff(e: Entry, namecmp: seq<byte>, behind: seq<byte>)
    requires |e.raw| <= |namecmp + behind|
    ensures Compares(e, namecmp, behind) <==> e.raw[..Strlen(e.raw)] <= namecmp + behind
  {
    StrncmpIff(e.raw, namecmp + behind, Strlen(e.raw));
  }

  lemma {:induction false} StrlenSkips(s: seq<byte>, k: nat)
    requires k <= |s| && forall i :: 0 <= i < k ==> s[i] != 0
    ensures Strlen(s) == k + Strlen(s[k..])
  {
    if k > 0 {
      StrlenSkips(s[1..], k - 1);
      assert s[1..][k - 1..] == s[k..];
    } else {
      assert s[0..] == s;
    }
  }

  /** Which entries `read` takes for the file it looks for.  In an entry as FAT writes it, without a NUL in
      name and extension, these must be the padded ones; but the comparison goes on into the attributes, which
      must be none at all, or the archive bit alone and then nothing else up to the next NUL but what happens to
      lie behind the buffer. */
  lemma FileIsFoundIff(e: Entry, name: seq<byte>, ext: Option<seq<byte>>, behind: seq<byte>)
    requires |e.raw| == ENTRY_SIZE && |behind| >= 20 && forall i :: 0 <= i < 11 ==> e.raw[i] != 0
    ensures var namecmp := Padded(name, 8) + Padded(Extension(ext), 3) + [BLANK];
            e.raw[0] != 0 && Compares(e, namecmp, behind) <==>
            && e.raw[..8] == Padded(name, 8) && e.raw[8..11] == Padded(Extension(ext), 3)
            && (e.raw[11] == 0 || (e.raw[11] == 0x20 && e.raw[12..12 + Strlen(e.raw[12..])] <= behind))
  {
    var raw, first, second := e.raw, Padded(name, 8), Padded(Extension(ext), 3);
    var field, tail := first + second, raw[11..];
    ComparesIff(e, field + [BLANK], behind);
    StrlenSkips(raw, 11);
    Assoc(field, [BLANK], behind);
    SplitPrefix(raw, 11, Strlen(tail), field, [BLANK] + behind);
    TailMatches(tail, behind);
    hide *;
    assert tail[1..] == raw[12..];
    assert raw[..11] == raw[..8] + raw[8..11];
    assert raw[12..12 + Strlen(raw[12..])] == raw[12..][..Strlen(raw[12..])];
  }

  lemma Assoc(a: seq<byte>, b: seq<byte>, c: seq<byte>)
    ensures a + b + c == a + (b + c)
  {
  }

  lemma SplitPrefix(a: seq<byte>, k: nat, m: nat, c: seq<byte>, d: seq<byte>)
    requires |c| == k && k + m <= |a|
    ensures a[..k + m] <= c + d <==> a[..k] == c && a[k..][..m] <= d
  {
    ConcatPrefix(a[..k], a[k..][..m], c, d);
    assert a[..k + m] == a[..k] + a[k..][..m];
  }

  lemma ConcatPrefix(a: seq<byte>, b: seq<byte>, c: seq<byte>, d: seq<byte>)
    requires |a| == |c|
    ensures a + b <= c + d <==> a == c && b <= d
  {
    if a + b <= c + d {
      assert a == (a + b)[..|a|] == (c + d)[..|a|] == c;
      assert b == (a + b)[|a|..] && d == (c + d)[|a|..];
    }
  }

  lemma TailMatches(tail: seq<byte>, behind: seq<byte>)
    requires tail != []
    ensures tail[..Strlen(tail)] <= [BLANK] + behind <==>
            tail[0] == 0 || (tail[0] == BLANK && tail[1..][..Strlen(tail[1..])] <= behind)
  {
    if tail[0] != 0 {
      ConcatPrefix([tail[0]], tail[1..][..Strlen(tail[1..])], [BLANK], behind);
      assert tail[..Strlen(tail)] == [tail[0]] + tail[1..][..Strlen(tail[1..])];
    }
  }

  /** So `read` never finds a read-only, hidden or system file, nor a directory. */
  lemma OnlyPlainFilesAreFound(es: seq<Entry>, name: seq<byte>, ext: Option<seq<byte>>, behind: seq<byte>)
    requires |behind| >= 20
    requires forall k :: 0 <= k < |es| ==> |es[k].raw| == ENTRY_SIZE && forall i :: 1 <= i < 11 ==> es[k].raw[i] != 0
    ensures var namecmp := Padded(name, 8) + Padded(Extension(ext), 3) + [BLANK];
            var k := FirstHit(es, e => Compares(e, namecmp, behind));
            k < |es| ==> && (es[k].raw[11] == 0 || es[k].raw[11] == 0x20)
                         && es[k].raw[..11] == Padded(name, 8) + Padded(Extension(ext), 3)
  {
    var namecmp := Padded(name, 8) + Padded(Extension(ext), 3) + [BLANK];
    var k := FirstHit(es, e => Compares(e, namecmp, behind));
    if k < |es| {
      FileIsFoundIff(es[k], name, ext, behind);
      assert es[k].raw[..11] == es[k].raw[..8] + es[k].raw[8..11];
    }
  }
}
