/** The paired image catalogue: numbered pictures, each saved as a JPEG and as a raw file. */
module Catalogue {
  import Seqs

  const IMAGE: string := "image"
  const JPG: string := ".jpg"
  const DNG: string := ".dng"

  // ---------- names and numbers ----------

  predicate IsDigit(c: char) { '0' <= c <= '9' }

  function Digit(d: nat): (c: char)
    requires d < 10
    ensures IsDigit(c) && c as int - '0' as int == d
  {
    ('0' as int + d) as char
  }

  /** The decimal text of a number, as an f-string prints it. */
  function Dec(n: nat): (s: string)
    ensures s != [] && forall c :: c in s ==> IsDigit(c)
  {
    if n < 10 then [Digit(n)] else Dec(n / 10) + [Digit(n % 10)]
  }

  /** `int()` on a string of digits. */
  function ParseInt(s: string): nat
    requires forall i :: 0 <= i < |s| ==> IsDigit(s[i])
  {
    if s == [] then 0
    else
      assert IsDigit(s[|s| - 1]);
      10 * ParseInt(s[..|s| - 1]) + (s[|s| - 1] as int - '0' as int)
  }

  lemma {:induction false} DecRoundTrip(n: nat)
    ensures forall i :: 0 <= i < |Dec(n)| ==> Dec(n)[i] in Dec(n)
    ensures ParseInt(Dec(n)) == n
  {
    if n >= 10 {
      DecRoundTrip(n / 10);
      Seqs.SnocPrefix(Dec(n / 10), Digit(n % 10));
    }
  }

  /** The digits that are printed, and one more digit at the end for every factor of ten. */
  lemma DecDigits(n: nat, d: nat)
    requires d < 10
    ensures Dec(d) == ["0123456789"[d]]
    ensures n > 0 ==> Dec(10 * n + d) == Dec(n) + ["0123456789"[d]]
  {
    DigitText(d);
    assert (10 * n + d) / 10 == n && (10 * n + d) % 10 == d;
  }

  lemma DigitText(d: nat)
    requires d < 10
    ensures Digit(d) == "0123456789"[d]
  {
    var text := "0123456789";
    assert text == ['0', '1', '2', '3', '4', '5', '6', '7', '8', '9'];
  }

  /** `str.replace(pat, "")`: every occurrence goes, from left to right. */
  function Strip(s: string, pat: string): string
    requires pat != []
  {
    if |s| < |pat| then s
    else if s[..|pat|] == pat then Strip(s[|pat|..], pat)
    else [s[0]] + Strip(s[1..], pat)
  }

  lemma StripOther(s: string, pat: string)
    requires pat != [] && s != [] && s[0] != pat[0]
    ensures Strip(s, pat) == [s[0]] + Strip(s[1..], pat)
  {
    if |s| < |pat| {
      assert s == [s[0]] + s[1..];
    } else {
      assert s[..|pat|][0] == s[0];
    }
  }

  lemma {:induction false} StripSkips(s: string, t: string, pat: string)
    requires pat != [] && pat[0] !in s
    ensures Strip(s + t, pat) == s + Strip(t, pat)
  {
    if s == [] {
      assert s + t == t;
    } else {
      assert (s + t)[0] == s[0] && (s + t)[1..] == s[1..] + t;
      StripSkips(s[1..], t, pat);
      StripOther(s + t, pat);
      assert s + Strip(t, pat) == [s[0]] + (s[1..] + Strip(t, pat));
    }
  }

  lemma StripPrefix(t: string, pat: string)
    requires pat != []
    ensures Strip(pat + t, pat) == Strip(t, pat)
  {
    assert (pat + t)[..|pat|] == pat && (pat + t)[|pat|..] == t;
  }

  predicate IsExt(ext: string) { ext == JPG || ext == DNG }

  function FileName(n: nat, ext: string): string {
    IMAGE + Dec(n) + ext
  }

  /** What is left of a file name when "image" and the extension are replaced by nothing. */
  function Core(name: string, ext: string): string
    requires ext != []
  {
    Strip(Strip(name, IMAGE), ext)
  }

  lemma CoreOfName(n: nat, ext: string)
    requires IsExt(ext)
    ensures Core(FileName(n, ext), ext) == Dec(n)
  {
    assert FileName(n, ext) == IMAGE + (Dec(n) + ext);
    StripPrefix(Dec(n) + ext, IMAGE);
    StripSkips(Dec(n) + ext, [], IMAGE);
    assert Dec(n) + ext + [] == Dec(n) + ext;
    StripSkips(Dec(n), ext, ext);
    StripPrefix([], ext);
    assert ext + [] == ext && Dec(n) + [] == Dec(n);
  }

  lemma NameIsUnique(m: nat, n: nat, ext: string)
    requires IsExt(ext)
    ensures FileName(m, ext) == FileName(n, ext) <==> m == n
  {
    CoreOfName(m, ext);
    CoreOfName(n, ext);
    DecRoundTrip(m);
    DecRoundTrip(n);
  }

  // ---------- directories ----------

  /** Every file of the directory is named the way the catalogue names files. */
  ghost predicate Canonical(dir: set<string>, ext: string) {
    forall f :: f in dir ==> exists n: nat :: f == FileName(n, ext)
  }

  /** The number that the catalogue reads off a file name. */
  ghost function NumberOf(f: string, ext: string): nat
    requires ext != []
  {
    if forall i :: 0 <= i < |Core(f, ext)| ==> IsDigit(Core(f, ext)[i]) then ParseInt(Core(f, ext)) else 0
  }

  lemma NumberOfName(n: nat, ext: string)
    requires IsExt(ext)
    ensures NumberOf(FileName(n, ext), ext) == n
  {
    CoreOfName(n, ext);
    DecRoundTrip(n);
  }

  ghost function Numbers(dir: set<string>, ext: string): set<nat>
    requires ext != []
  {
    set f | f in dir :: NumberOf(f, ext)
  }

  /** The numbers read from a canonical directory are those of its files. */
  lemma NumbersOfCanonical(dir: set<string>, ext: string, n: nat)
    requires IsExt(ext) && Canonical(dir, ext)
    ensures n in Numbers(dir, ext) <==> FileName(n, ext) in dir
  {
    if n in Numbers(dir, ext) {
      var f :| f in dir && NumberOf(f, ext) == n;
      var m: nat :| f == FileName(m, ext);
      NumberOfName(m, ext);
    }
    NumberOfName(n, ext);
  }

  /** The next number, which `get_name` prints after "image". */
  ghost function NextNumber(jpg: set<string>, dng: set<string>): nat {
    var all := Numbers(jpg, JPG) + Numbers(dng, DNG);
    if all == {} then 1 else Max(all) + 1
  }

  ghost function Max(s: set<nat>): (m: nat)
    requires s != {}
    ensures m in s && forall x :: x in s ==> x <= m
  {
    var x :| x in s;
    if s == {x} then x
    else
      assert s == {x} + (s - {x});
      var m := Max(s - {x});
      if x < m then m else x
  }

  /** The name handed out next is the name of no file in either directory. */
  lemma NextIsFresh(jpg: set<string>, dng: set<string>)
    requires Canonical(jpg, JPG) && Canonical(dng, DNG)
    ensures FileName(NextNumber(jpg, dng), JPG) !in jpg
    ensures FileName(NextNumber(jpg, dng), DNG) !in dng
  {
    var n := NextNumber(jpg, dng);
    NumbersOfCanonical(jpg, JPG, n);
    NumbersOfCanonical(dng, DNG, n);
  }

  /** The next number is 1 in an empty catalogue, and otherwise one more than the largest number of
      a file in either directory. */
  lemma NextIsMaxPlusOne(jpg: set<string>, dng: set<string>)
    ensures var all, next := Numbers(jpg, JPG) + Numbers(dng, DNG), NextNumber(jpg, dng);
      && (all == {} ==> next == 1)
      && (all != {} ==> next > 0 && next - 1 in all && forall x :: x in all ==> x < next)
  {
  }

  /** The files of the twelfth picture, as they are called. */
  lemma NamesAsPrinted()
    ensures FileName(12, JPG) == "image12.jpg" && FileName(12, DNG) == "image12.dng"
  {
    DecDigits(0, 1);
    DecDigits(1, 2);
    assert Dec(12) == "12";
  }

  datatype Dirs = Dirs(jpg: set<string>, dng: set<string>)

  /** A capture saves the JPEG first; it may be cut before it saves the raw file. */
  datatype Action = Capture(cut: bool) | Delete(n: nat) | Format

  ghost function Do(d: Dirs, a: Action): Dirs {
    match a
    case Capture(cut) =>
      var n := NextNumber(d.jpg, d.dng);
      Dirs(d.jpg + {FileName(n, JPG)}, if cut then d.dng else d.dng + {FileName(n, DNG)})
    case Delete(n) =>
      if FileName(n, JPG) in d.jpg && FileName(n, DNG) in d.dng
      then Dirs(d.jpg - {FileName(n, JPG)}, d.dng - {FileName(n, DNG)}) else d
    case Format =>
      Dirs(set f | f in d.jpg && NumberOf(f, JPG) in Numbers(d.dng, DNG),
           set f | f in d.dng && NumberOf(f, DNG) in Numbers(d.jpg, JPG))
  }

  // ---------- the code ----------

  class ImageStore {
    var jpg: set<string>
    var dng: set<string>

    ghost predicate Valid()
      reads this
    {
      Canonical(jpg, JPG) && Canonical(dng, DNG)
    }

    /** The two lists of numbers that `glob` and `int` produce. */
    method ReadNumbers(dir: set<string>, ext: string) returns (numbers: set<nat>)
      requires IsExt(ext) && Canonical(dir, ext)
      ensures numbers == Numbers(dir, ext)
    {
      numbers := {};
      var left := dir;
      ghost var seen: set<string> := {};
      while left != {}
        invariant seen + left == dir && numbers == Numbers(seen, ext)
        decreases left
      {
        var f :| f in left;
        CanonicalCore(dir, ext, f);
        numbers := numbers + {ParseInt(Core(f, ext))};
        left := left - {f};
        assert Numbers(seen + {f}, ext) == Numbers(seen, ext) + {NumberOf(f, ext)};
        seen := seen + {f};
      }
      assert seen == dir;
    }

    /** Deletes the files of these numbers, each of which must exist. */
    method RemoveAll(dir: set<string>, ext: string, numbers: set<nat>) returns (left: set<string>)
      requires IsExt(ext) && Canonical(dir, ext)
      requires numbers <= Numbers(dir, ext)
      ensures left <= dir
      ensures forall n: nat :: FileName(n, ext) in left <==> FileName(n, ext) in dir && n !in numbers
    {
      left := dir;
      var todo := numbers;
      while todo != {}
        invariant todo <= numbers && left <= dir
        invariant forall n: nat :: FileName(n, ext) in left <==> FileName(n, ext) in dir && n !in numbers - todo
        decreases todo
      {
        var num :| num in todo;
        NumbersOfCanonical(dir, ext, num);
        assert FileName(num, ext) in left;
        left := left - {FileName(num, ext)};
        forall n: nat ensures FileName(n, ext) == FileName(num, ext) <==> n == num {
          NameIsUnique(n, num, ext);
        }
        todo := todo - {num};
      }
    }

    /** Removes the pictures that exist in one directory only. */
    method FormatNumber()
      requires Valid()
      modifies this
      ensures Valid() && Dirs(jpg, dng) == Do(old(Dirs(jpg, dng)), Format)
    {
      ghost var wasJpg, wasDng := jpg, dng;
      var jpgNumbers := ReadNumbers(jpg, JPG);
      var dngNumbers := ReadNumbers(dng, DNG);
      forall n: nat
        ensures n in jpgNumbers <==> FileName(n, JPG) in jpg
        ensures n in dngNumbers <==> FileName(n, DNG) in dng
      {
        NumbersOfCanonical(jpg, JPG, n);
        NumbersOfCanonical(dng, DNG, n);
      }
      jpg := RemoveAll(jpg, JPG, jpgNumbers - dngNumbers);
      dng := RemoveAll(dng, DNG, dngNumbers - jpgNumbers);
      SameFiles(wasJpg, jpg, JPG, Numbers(wasDng, DNG));
      SameFiles(wasDng, dng, DNG, Numbers(wasJpg, JPG));
    }

    /** `max` of a set of numbers. */
    method MaxOf(numbers: set<nat>) returns (m: nat)
      requires numbers != {}
      ensures m == Max(numbers)
    {
      var left := numbers;
      m := 0;
      while left != {}
        invariant left <= numbers
        invariant forall x :: x in numbers && x !in left ==> x <= m
        invariant m in numbers || (m == 0 && left == numbers)
        decreases left
      {
        var x :| x in left;
        if m < x || left == numbers {
          m := x;
        }
        left := left - {x};
      }
      assert m in numbers && forall x :: x in numbers ==> x <= m;
    }

    method GetName() returns (name: string)
      requires Valid()
      ensures name == IMAGE + Dec(NextNumber(jpg, dng))
    {
      var jpgNumbers := ReadNumbers(jpg, JPG);
      var dngNumbers := ReadNumbers(dng, DNG);
      var all := jpgNumbers + dngNumbers;
      if all == {} {
        assert Dec(1) == "1";
        return "image1";
      }
      var m := MaxOf(all);
      return IMAGE + Dec(m + 1);
    }

    /** A capture under the next name: the JPEG first, and then, unless it is cut, the raw file. */
    method CaptureDngJpg(cut: bool)
      requires Valid()
      modifies this
      ensures Valid() && Dirs(jpg, dng) == Do(old(Dirs(jpg, dng)), Capture(cut))
    {
      var name := GetName();
      ghost var n := NextNumber(jpg, dng);
      assert name + JPG == FileName(n, JPG) && name + DNG == FileName(n, DNG);
      jpg := jpg + {name + JPG};
      if !cut {
        dng := dng + {name + DNG};
      }
    }

    /** Deletes a pair; an incomplete one is only reported. */
    method DeleteFile(n: nat)
      requires Valid()
      modifies this
      ensures Valid()
      ensures Dirs(jpg, dng) == Do(old(Dirs(jpg, dng)), Delete(n))
    {
      if FileName(n, JPG) in jpg && FileName(n, DNG) in dng {
        jpg := jpg - {FileName(n, JPG)};
        dng := dng - {FileName(n, DNG)};
      }
    }
  }

  /** A directory cut down to the numbers in `others` is the directory of those files. */
  lemma SameFiles(dir: set<string>, left: set<string>, ext: string, others: set<nat>)
    requires IsExt(ext) && Canonical(dir, ext) && left <= dir
    requires forall n: nat :: FileName(n, ext) in left <==> FileName(n, ext) in dir && n !in Numbers(dir, ext) - others
    ensures left == set f | f in dir && NumberOf(f, ext) in others
  {
    forall f | f in dir ensures f in left <==> NumberOf(f, ext) in others {
      var n: nat :| f == FileName(n, ext);
      NumberOfName(n, ext);
      NumbersOfCanonical(dir, ext, n);
    }
  }

  lemma CanonicalCore(dir: set<string>, ext: string, f: string)
    requires IsExt(ext) && Canonical(dir, ext) && f in dir
    ensures forall i :: 0 <= i < |Core(f, ext)| ==> IsDigit(Core(f, ext)[i])
  {
    var n: nat :| f == FileName(n, ext);
    CoreOfName(n, ext);
    DecRoundTrip(n);
  }

  // ---------- runs ----------

  ghost function Pairs(d: Dirs): set<nat>
    requires Canonical(d.jpg, JPG) && Canonical(d.dng, DNG)
  {
    Numbers(d.jpg, JPG) * Numbers(d.dng, DNG)
  }

  ghost function DoAll(d: Dirs, acts: seq<Action>): Dirs {
    if acts == [] then d else Do(DoAll(d, acts[..|acts| - 1]), acts[|acts| - 1])
  }

  ghost predicate ValidDirs(d: Dirs) {
    Canonical(d.jpg, JPG) && Canonical(d.dng, DNG)
  }

  lemma {:induction false} AlwaysCanonical(d: Dirs, acts: seq<Action>)
    requires ValidDirs(d)
    ensures ValidDirs(DoAll(d, acts))
  {
    if acts != [] {
      AlwaysCanonical(d, acts[..|acts| - 1]);
    }
  }

  /** No capture, at any point of any run, writes over a picture that is there. */
  lemma CapturesNeverOverwrite(d: Dirs, acts: seq<Action>)
    requires ValidDirs(d)
    ensures var s := DoAll(d, acts);
      FileName(NextNumber(s.jpg, s.dng), JPG) !in s.jpg && FileName(NextNumber(s.jpg, s.dng), DNG) !in s.dng
  {
    AlwaysCanonical(d, acts);
    NextIsFresh(DoAll(d, acts).jpg, DoAll(d, acts).dng);
  }

  lemma InFormatted(d: Dirs, n: nat)
    requires ValidDirs(d)
    ensures ValidDirs(Do(d, Format))
    ensures n in Numbers(Do(d, Format).jpg, JPG) <==> n in Pairs(d)
    ensures n in Numbers(Do(d, Format).dng, DNG) <==> n in Pairs(d)
  {
    NumbersOfCanonical(d.jpg, JPG, n);
    NumbersOfCanonical(d.dng, DNG, n);
    NumbersOfCanonical(Do(d, Format).jpg, JPG, n);
    NumbersOfCanonical(Do(d, Format).dng, DNG, n);
    NumberOfName(n, JPG);
    NumberOfName(n, DNG);
  }

  /** After any run, formatting leaves exactly the complete pairs in both directories, and doing it
      again changes nothing. */
  lemma FormatKeepsPairs(d: Dirs, acts: seq<Action>)
    requires ValidDirs(d)
    ensures var s := DoAll(d, acts);
      && ValidDirs(s) && ValidDirs(Do(s, Format))
      && Numbers(Do(s, Format).jpg, JPG) == Numbers(Do(s, Format).dng, DNG) == Pairs(s)
      && Do(Do(s, Format), Format) == Do(s, Format)
  {
    AlwaysCanonical(d, acts);
    var s := DoAll(d, acts);
    forall n: nat
      ensures n in Numbers(Do(s, Format).jpg, JPG) <==> n in Pairs(s)
      ensures n in Numbers(Do(s, Format).dng, DNG) <==> n in Pairs(s)
    {
      InFormatted(s, n);
    }
    InFormatted(s, 0);
  }

  /** Each action does to the complete pairs what it should: a capture adds the new one, unless it
      is cut, a delete takes out that one, and formatting loses none. */
  lemma PairsAfter(d: Dirs, a: Action)
    requires ValidDirs(d)
    ensures ValidDirs(Do(d, a))
    ensures Pairs(Do(d, a)) == match a
      case Capture(cut) => if cut then Pairs(d) else Pairs(d) + {NextNumber(d.jpg, d.dng)}
      case Delete(n) => Pairs(d) - {n}
      case Format => Pairs(d)
  {
    forall m: nat
      ensures m in Pairs(Do(d, a)) <==> match a
        case Capture(cut) => m in Pairs(d) || (!cut && m == NextNumber(d.jpg, d.dng))
        case Delete(n) => m in Pairs(d) && m != n
        case Format => m in Pairs(d)
    {
      PairAfter(d, a, m);
    }
  }

  lemma PairAfter(d: Dirs, a: Action, m: nat)
    requires ValidDirs(d)
    ensures ValidDirs(Do(d, a))
    ensures m in Pairs(Do(d, a)) <==> match a
      case Capture(cut) => m in Pairs(d) || (!cut && m == NextNumber(d.jpg, d.dng))
      case Delete(n) => m in Pairs(d) && m != n
      case Format => m in Pairs(d)
  {
    NumbersOfCanonical(d.jpg, JPG, m);
    NumbersOfCanonical(d.dng, DNG, m);
    match a
    case Capture(cut) =>
      var n := NextNumber(d.jpg, d.dng);
      NextIsFresh(d.jpg, d.dng);
      NumbersOfCanonical(Do(d, a).jpg, JPG, m);
      NumbersOfCanonical(Do(d, a).dng, DNG, m);
      NameIsUnique(m, n, JPG);
      NameIsUnique(m, n, DNG);
    case Delete(n) =>
      NumbersOfCanonical(Do(d, a).jpg, JPG, m);
      NumbersOfCanonical(Do(d, a).dng, DNG, m);
      NameIsUnique(m, n, JPG);
      NameIsUnique(m, n, DNG);
    case Format => InFormatted(d, m);
  }

  // ---------- what each action does to each directory ----------

  /** The numbers of the pictures with a JPEG, and with a raw file. */
  ghost function Jpgs(d: Dirs): set<nat> { Numbers(d.jpg, JPG) }

  ghost function Dngs(d: Dirs): set<nat> { Numbers(d.dng, DNG) }

  lemma RemovedNumber(dir: set<string>, ext: string, n: nat)
    requires IsExt(ext) && Canonical(dir, ext)
    ensures Numbers(dir - {FileName(n, ext)}, ext) == Numbers(dir, ext) - {n}
  {
    forall m: nat ensures m in Numbers(dir - {FileName(n, ext)}, ext) <==> m in Numbers(dir, ext) - {n} {
      NumbersOfCanonical(dir, ext, m);
      NumbersOfCanonical(dir - {FileName(n, ext)}, ext, m);
      NameIsUnique(m, n, ext);
    }
  }

  lemma AddedNumber(dir: set<string>, ext: string, n: nat)
    requires IsExt(ext) && Canonical(dir, ext)
    ensures Numbers(dir + {FileName(n, ext)}, ext) == Numbers(dir, ext) + {n}
  {
    forall m: nat ensures m in Numbers(dir + {FileName(n, ext)}, ext) <==> m in Numbers(dir, ext) + {n} {
      NumbersOfCanonical(dir, ext, m);
      NumbersOfCanonical(dir + {FileName(n, ext)}, ext, m);
      NameIsUnique(m, n, ext);
    }
  }

  /** Deleting a picture that is in both directories takes that one number out of each. If it is
      missing from either, neither directory changes. */
  lemma DeleteDoes(d: Dirs, n: nat)
    requires ValidDirs(d)
    ensures n in Jpgs(d) && n in Dngs(d) ==>
      Jpgs(Do(d, Delete(n))) == Jpgs(d) - {n} && Dngs(Do(d, Delete(n))) == Dngs(d) - {n}
    ensures n !in Jpgs(d) || n !in Dngs(d) ==> Do(d, Delete(n)) == d
  {
    NumbersOfCanonical(d.jpg, JPG, n);
    NumbersOfCanonical(d.dng, DNG, n);
    RemovedNumber(d.jpg, JPG, n);
    RemovedNumber(d.dng, DNG, n);
  }

  /** A capture adds one number, new to both directories, to the JPEGs, and to the raw files unless
      it is cut, and keeps all files that were there. */
  lemma CaptureDoes(d: Dirs, cut: bool)
    requires ValidDirs(d)
    ensures var d', n := Do(d, Capture(cut)), NextNumber(d.jpg, d.dng);
      && n !in Jpgs(d) + Dngs(d)
      && Jpgs(d') == Jpgs(d) + {n} && Dngs(d') == (if cut then Dngs(d) else Dngs(d) + {n})
      && d.jpg <= d'.jpg && d.dng <= d'.dng && (cut ==> d'.dng == d.dng)
  {
    var n := NextNumber(d.jpg, d.dng);
    NextIsFresh(d.jpg, d.dng);
    NumbersOfCanonical(d.jpg, JPG, n);
    NumbersOfCanonical(d.dng, DNG, n);
    AddedNumber(d.jpg, JPG, n);
    AddedNumber(d.dng, DNG, n);
  }
}
