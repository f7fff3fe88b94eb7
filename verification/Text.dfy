/** The std::string and std::istream operations the parsers are written with. */
module Text {
  import opened Results

  // std::string::npos.
  const NPOS := -1

  /** s.find(c). */
  function Find(s: string, c: char): (r: int)
    ensures NPOS <= r < |s|
    ensures r >= 0 ==> s[r] == c && c !in s[..r]
    ensures r == NPOS ==> c !in s
  {
    if s == "" then NPOS
    else if s[0] == c then 0
    else
      var r := Find(s[1..], c);
      if r == NPOS then NPOS else assert s[..r + 1] == [s[0]] + s[1..][..r]; r + 1
  }

  /** s.rfind(c). */
  function FindLast(s: string, c: char): (r: int)
    ensures NPOS <= r < |s| && (r >= 0 ==> s[r] == c)
    ensures forall k :: r < k < |s| ==> s[k] != c
  {
    if s == "" then NPOS
    else if s[|s| - 1] == c then |s| - 1
    else FindLast(s[..|s| - 1], c)
  }

  predicate OccursAt(s: string, pat: string, k: nat) {
    k <= |s| && pat <= s[k..]
  }

  /** s.find(pat): the first position where pat occurs. */
  function FindText(s: string, pat: string): (r: int)
    ensures NPOS <= r <= |s|
    ensures r >= 0 ==> OccursAt(s, pat, r) && forall k: nat :: k < r ==> !OccursAt(s, pat, k)
    ensures r == NPOS ==> forall k: nat :: !OccursAt(s, pat, k)
  {
    if pat <= s then assert s == s[0..]; 0
    else if s == "" then NPOS
    else
      assert forall k: nat :: 0 < k <= |s| ==> s[k..] == s[1..][k - 1..];
      assert s == s[0..];
      var r := FindText(s[1..], pat);
      assert forall k: nat :: 0 < k ==> (OccursAt(s, pat, k) <==> OccursAt(s[1..], pat, k - 1));
      if r == NPOS then NPOS else r + 1
  }

  /** The position found is the only one of its kind. */
  lemma FindIs(s: string, c: char, k: nat)
    requires k < |s| && s[k] == c && c !in s[..k]
    ensures Find(s, c) == k
  {
  }

  /** s.substr(pos, n): throws when pos is past the end, and is cut at the end. */
  function Substr(s: string, pos: nat, n: nat): (r: Result<string>)
    ensures pos > |s| ==> r == Err(OutOfRange)
    ensures pos <= |s| ==> r.Ok? && r.value <= s[pos..] && |r.value| == if n < |s| - pos then n else |s| - pos
  {
    if pos > |s| then Err(OutOfRange)
    else if pos + n <= |s| then Ok(s[pos..pos + n])
    else Ok(s[pos..])
  }

  predicate IsBlank(c: char) {
    c == ' ' || c == '\t' || c == '\r' || c == '\n'
  }

  // find_first_not_of, then find_last_not_of.
  function TrimLeft(s: string): (r: string)
    ensures |r| <= |s| && r == s[|s| - |r|..]
    ensures r != "" ==> !IsBlank(r[0])
    ensures forall k :: 0 <= k < |s| - |r| ==> IsBlank(s[k])
  {
    if s != "" && IsBlank(s[0]) then TrimLeft(s[1..]) else s
  }

  function TrimRight(s: string): (r: string)
    ensures r <= s
    ensures r != "" ==> !IsBlank(r[|r| - 1])
    ensures forall k :: |r| <= k < |s| ==> IsBlank(s[k])
  {
    if s != "" && IsBlank(s[|s| - 1]) then TrimRight(s[..|s| - 1]) else s
  }

  function Trim(s: string): string {
    TrimRight(TrimLeft(s))
  }

  predicate IsTrimmed(s: string) {
    s != "" && !IsBlank(s[0]) && !IsBlank(s[|s| - 1])
  }

  /** Trimming leaves a trimmed text alone, and any text it changes is trimmed. */
  lemma TrimIsIdempotent(s: string)
    ensures Trim(s) == "" || IsTrimmed(Trim(s))
    ensures IsTrimmed(s) ==> Trim(s) == s
  {
    var l := TrimLeft(s);
    if Trim(s) != "" {
      assert Trim(s)[0] == l[0];
    }
  }

  /** Trimming cuts spaces, tabs and line ends off both ends and nothing else, and
      leaves none there. */
  lemma TrimCutsBlanks(s: string)
    ensures exists i, j :: 0 <= i <= j <= |s| && Trim(s) == s[i..j]
                           && (forall k :: 0 <= k < i || j <= k < |s| ==> s[k] in " \t\r\n")
                           && (i < j ==> s[i] !in " \t\r\n" && s[j - 1] !in " \t\r\n")
  {
    hide TrimLeft, TrimRight;
    var l := TrimLeft(s);
    var i := |s| - |l|;
    var j := i + |Trim(s)|;
    assert Trim(s) == s[i..j];
    forall k | 0 <= k < i || j <= k < |s|
      ensures s[k] in " \t\r\n"
    {
      assert k >= i ==> s[k] == l[k - i];
    }
    if i < j {
      assert s[i] == l[0] && s[j - 1] == Trim(s)[|Trim(s)| - 1];
    }
  }

  /** Trimming already removes the '\r' that the readers pop off a line. */
  lemma TrimDropsReturn(s: string)
    ensures s != "" && s[|s| - 1] == '\r' ==> Trim(s[..|s| - 1]) == Trim(s)
  {
    if s != "" && s[|s| - 1] == '\r' {
      TrimLeftOfBlankEnd(s);
    }
  }

  lemma {:induction false} TrimLeftIs(s: string, i: nat)
    requires i <= |s| && (forall k :: 0 <= k < i ==> IsBlank(s[k])) && (i < |s| ==> !IsBlank(s[i]))
    ensures TrimLeft(s) == s[i..]
  {
    hide IsBlank;
    if i > 0 {
      assert s[0..][0] == s[0];
      TrimLeftIs(s[1..], i - 1);
      assert s[1..][i - 1..] == s[i..];
    }
  }

  lemma TrimLeftOfBlankEnd(s: string)
    requires s != "" && IsBlank(s[|s| - 1])
    ensures TrimLeft(s) == "" ==> TrimLeft(s[..|s| - 1]) == ""
    ensures TrimLeft(s) != "" ==> TrimLeft(s[..|s| - 1]) == TrimLeft(s)[..|TrimLeft(s)| - 1]
  {
    hide IsBlank, TrimLeft;
    var l, t := TrimLeft(s), s[..|s| - 1];
    var i := |s| - |l|;
    if l == "" {
      TrimLeftIs(t, |t|);
    } else {
      assert s[i] == l[0];
      TrimLeftIs(t, i);
      assert t[i..] == l[..|l| - 1];
    }
  }

  /** Blanks around a text make no difference to what is left of it. */
  lemma TrimSkipsBlanks(before: string, s: string, after: string)
    requires forall c :: c in before + after ==> IsBlank(c)
    ensures Trim(before + s + after) == Trim(s)
  {
    hide Trim, IsBlank;
    assert forall c :: c in before ==> c in before + after;
    assert forall c :: c in after ==> c in before + after;
    BlanksBehind(before + s, after);
    BlanksBefore(before, s);
  }

  lemma {:induction false} BlanksBefore(before: string, s: string)
    requires forall c :: c in before ==> IsBlank(c)
    ensures Trim(before + s) == Trim(s)
  {
    hide IsBlank, TrimRight;
    if before == "" {
      assert before + s == s;
    } else {
      assert before[0] in before && (before + s)[1..] == before[1..] + s;
      BlanksBefore(before[1..], s);
    }
  }

  lemma {:induction false} BlanksBehind(s: string, after: string)
    requires forall c :: c in after ==> IsBlank(c)
    ensures Trim(s + after) == Trim(s)
    decreases |after|
  {
    hide IsBlank, Trim;
    if after == "" {
      assert s + after == s;
    } else {
      var n := |after| - 1;
      assert (s + after)[..|s| + n] == s + after[..n] && after[n] in after;
      OneBlankBehind(s + after);
      BlanksBehind(s, after[..n]);
    }
  }

  lemma {:induction false} TrimLeftStops(left: string, c: char, rest: string)
    requires !IsBlank(c)
    ensures TrimLeft(left + [c] + rest) == TrimLeft(left) + [c] + rest
  {
    hide IsBlank;
    if left == "" {
      assert left + [c] + rest == [c] + rest;
    } else {
      assert (left + [c] + rest)[1..] == left[1..] + [c] + rest;
      TrimLeftStops(left[1..], c, rest);
    }
  }

  lemma {:induction false} TrimRightStops(head: string, c: char, right: string)
    requires !IsBlank(c)
    ensures TrimRight(head + [c] + right) == head + [c] + TrimRight(right)
    decreases |right|
  {
    hide IsBlank;
    if right == "" {
      assert head + [c] + right == head + [c];
    } else {
      var n := |right| - 1;
      assert (head + [c] + right)[..|head| + 1 + n] == head + [c] + right[..n];
      TrimRightStops(head, c, right[..n]);
    }
  }

  /** A character inside that is no blank divides the trimming. */
  lemma TrimDivides(left: string, c: char, right: string)
    requires !IsBlank(c)
    ensures Trim(left + [c] + right) == TrimLeft(left) + [c] + TrimRight(right)
    ensures Trim(TrimLeft(left)) == Trim(left) && Trim(TrimRight(right)) == Trim(right)
  {
    TrimLeftStops(left, c, right);
    TrimRightStops(TrimLeft(left), c, right);
    hide TrimLeft, TrimRight;
    EndsDoNotMatter(left, right);
  }

  lemma EndsDoNotMatter(left: string, right: string)
    ensures Trim(TrimLeft(left)) == Trim(left) && Trim(TrimRight(right)) == Trim(right)
  {
    hide IsBlank, TrimLeft, TrimRight, Trim;
    var l, r := TrimLeft(left), TrimRight(right);
    var before, behind := left[..|left| - |l|], right[|r|..];
    assert left == before + l && right == r + behind;
    BlanksBefore(before, l);
    BlanksBehind(r, behind);
  }

  lemma OneBlankBehind(s: string)
    requires s != "" && IsBlank(s[|s| - 1])
    ensures Trim(s) == Trim(s[..|s| - 1])
  {
    hide IsBlank, TrimLeft;
    TrimLeftOfBlankEnd(s);
    var l := TrimLeft(s);
    if l != "" {
      assert l[|l| - 1] == s[|s| - 1];
    }
  }

  function UpperChar(c: char): char {
    if 'a' <= c <= 'z' then c - 'a' + 'A' else c
  }

  function ToUpper(s: string): (r: string)
    ensures |r| == |s|
    ensures forall k :: 0 <= k < |s| ==> r[k] == UpperChar(s[k])
  {
    seq(|s|, k requires 0 <= k < |s| => UpperChar(s[k]))
  }

  // The same letter, in either case, or the same character.
  predicate IsSameLetter(c: char, d: char) {
    || c == d
    || ('a' <= c <= 'z' && c as int - d as int == 32)
    || ('a' <= d <= 'z' && d as int - c as int == 32)
  }

  predicate IsSameName(s: string, t: string) {
    |s| == |t| && forall k :: 0 <= k < |s| ==> IsSameLetter(s[k], t[k])
  }

  predicate HasNoLower(s: string) {
    forall k :: 0 <= k < |s| ==> !('a' <= s[k] <= 'z')
  }

  /** Upper case tells texts apart but for the case of their letters. */
  lemma UpperFoldsCase(s: string, t: string)
    ensures ToUpper(s) == ToUpper(t) <==> IsSameName(s, t)
    ensures HasNoLower(s) ==> ToUpper(s) == s
  {
    if ToUpper(s) == ToUpper(t) {
      forall k | 0 <= k < |s|
        ensures IsSameLetter(s[k], t[k])
      {
        assert ToUpper(s)[k] == ToUpper(t)[k];
      }
    }
  }

  /** The pieces a std::getline loop with this delimiter reads: every piece is
      ended by the delimiter, except that a last one without it is read when it
      is not empty. */
  function Pieces(s: string, delim: char): (r: seq<string>)
    ensures forall k :: 0 <= k < |r| ==> delim !in r[k]
  {
    var k := Find(s, delim);
    if s == "" then []
    else if k == NPOS then [s]
    else
      var rest := Pieces(s[k + 1..], delim);
      assert forall i :: 0 < i < |rest| + 1 ==> ([s[..k]] + rest)[i] == rest[i - 1];
      [s[..k]] + rest
  }

  function Lines(s: string): seq<string> {
    Pieces(s, '\n')
  }

  lemma PiecesStep(x: string, delim: char, rest: string)
    requires delim !in x
    ensures Pieces(x + [delim] + rest, delim) == [x] + Pieces(rest, delim)
  {
    var s := x + [delim] + rest;
    assert s[..|x|] == x && s[|x| + 1..] == rest;
    FindIs(s, delim, |x|);
  }

  lemma PiecesEmpty(delim: char)
    ensures Pieces("", delim) == []
  {
  }

  lemma PiecesLast(x: string, delim: char)
    requires delim !in x
    ensures Pieces(x, delim) == if x == "" then [] else [x]
  {
  }

  // Every piece followed by the delimiter.
  function Terminated(parts: seq<string>, delim: char): string {
    if parts == [] then "" else parts[0] + [delim] + Terminated(parts[1..], delim)
  }

  lemma {:induction false} TerminatedSplits(a: seq<string>, b: seq<string>, delim: char)
    ensures Terminated(a + b, delim) == Terminated(a, delim) + Terminated(b, delim)
  {
    if a == [] {
      assert a + b == b;
    } else {
      assert (a + b)[1..] == a[1..] + b;
      TerminatedSplits(a[1..], b, delim);
    }
  }

  // Pieces separated by the delimiter.
  function Join(parts: seq<string>, delim: char): string {
    if parts == [] then ""
    else if |parts| == 1 then parts[0]
    else parts[0] + [delim] + Join(parts[1..], delim)
  }

  lemma {:induction false} PiecesOfTerminated(parts: seq<string>, delim: char)
    requires forall k :: 0 <= k < |parts| ==> delim !in parts[k]
    ensures Pieces(Terminated(parts, delim), delim) == parts
  {
    if parts != [] {
      PiecesOfTerminated(parts[1..], delim);
      PiecesStep(parts[0], delim, Terminated(parts[1..], delim));
    }
  }

  /** Joining and reading back gives the pieces, when the last is not empty. */
  lemma {:induction false} PiecesOfJoin(parts: seq<string>, delim: char)
    requires forall k :: 0 <= k < |parts| ==> delim !in parts[k]
    requires parts != [] ==> parts[|parts| - 1] != ""
    ensures Pieces(Join(parts, delim), delim) == parts
  {
    hide Pieces;
    if parts == [] {
      PiecesEmpty(delim);
    } else if |parts| == 1 {
      PiecesLast(parts[0], delim);
    } else if |parts| > 1 {
      PiecesOfJoin(parts[1..], delim);
      PiecesStep(parts[0], delim, Join(parts[1..], delim));
      assert [parts[0]] + parts[1..] == parts;
    }
  }

  // ---- Order -------------------------------------------------------------

  // std::string::operator< and SQLite's BINARY collation.
  predicate Less(a: string, b: string) {
    b != "" && (a == "" || a[0] < b[0] || (a[0] == b[0] && Less(a[1..], b[1..])))
  }

  lemma {:induction false} LessIsOrder(a: string, b: string, c: string)
    ensures !Less(a, a)
    ensures a == b || Less(a, b) || Less(b, a)
    ensures Less(a, b) && Less(b, c) ==> Less(a, c)
    decreases |a|
  {
    if a != "" {
      LessIsOrder(a[1..], if b == "" then "" else b[1..], if c == "" then "" else c[1..]);
      assert b != "" && a[0] == b[0] && a[1..] == b[1..] ==> a == [a[0]] + a[1..] && b == [b[0]] + b[1..];
    }
  }

  // a and b agree up to k, and there b goes on or has the greater character.
  predicate DiffersAt(a: string, b: string, k: nat) {
    k < |b| && k <= |a| && a[..k] == b[..k] && (k < |a| ==> a[k] < b[k])
  }

  /** The order is decided at the first difference; a proper prefix comes first. */
  lemma {:induction false} LessIff(a: string, b: string)
    ensures Less(a, b) <==> exists k: nat :: DiffersAt(a, b, k)
  {
    if Less(a, b) {
      if a != "" && a[0] == b[0] {
        LessIff(a[1..], b[1..]);
        var k: nat :| DiffersAt(a[1..], b[1..], k);
        assert a[..k + 1] == [a[0]] + a[1..][..k] && b[..k + 1] == [b[0]] + b[1..][..k];
        assert DiffersAt(a, b, k + 1);
      } else {
        assert DiffersAt(a, b, 0);
      }
    }
    if k: nat :| DiffersAt(a, b, k) && k > 0 {
      assert a[0] == a[..k][0] == b[..k][0] == b[0];
      assert a[1..][..k - 1] == a[..k][1..] && b[1..][..k - 1] == b[..k][1..];
      assert DiffersAt(a[1..], b[1..], k - 1);
      LessIff(a[1..], b[1..]);
    }
  }

  /** The elements of a std::set, or the keys of a std::map, in the order of its
      iterators. */
  ghost predicate IsAscending(s: seq<string>) {
    forall i, j :: 0 <= i < j < |s| ==> Less(s[i], s[j])
  }

  lemma EmptyHasNoItems<T>(t: seq<T>)
    ensures t == [] || exists i :: 0 <= i < |t| && t[i] in t
  {
    if t != [] {
      assert t[0] in t;
    }
  }

  /** An ascending row holds nothing twice, and its elements determine it. */
  lemma {:induction false} AscendingIsUnique(s: seq<string>, t: seq<string>)
    requires IsAscending(s) && IsAscending(t) && forall x :: x in s <==> x in t
    ensures s == t
    ensures forall i, j :: 0 <= i < j < |s| ==> s[i] != s[j]
    decreases |s|
  {
    hide Less;
    forall i, j | 0 <= i < j < |s|
      ensures s[i] != s[j]
    {
      LessIsOrder(s[i], s[j], s[i]);
    }
    if s == [] {
      EmptyHasNoItems(t);
    } else {
      assert s[0] in t && t[0] in s;
      var i :| 0 <= i < |t| && t[i] == s[0];
      var j :| 0 <= j < |s| && s[j] == t[0];
      LessIsOrder(s[0], t[0], s[0]);
      assert i == 0;
      forall x
        ensures x in s[1..] <==> x in t[1..]
      {
        RestOfAscending(s, x);
        RestOfAscending(t, x);
      }
      AscendingIsUnique(s[1..], t[1..]);
    }
  }

  lemma RestOfAscending(s: seq<string>, x: string)
    requires IsAscending(s) && s != []
    ensures x in s[1..] <==> x in s && x != s[0]
  {
    LessIsOrder(s[0], s[0], s[0]);
    hide Less;
    assert s == [s[0]] + s[1..];
    if i :| 0 <= i < |s[1..]| && s[1..][i] == x {
      assert Less(s[0], s[i + 1]);
    }
  }

  ghost predicate IsLeast(x: string, s: set<string>) {
    x in s && forall y :: y in s ==> y == x || Less(x, y)
  }

  lemma {:induction false} LeastExists(s: set<string>)
    requires s != {}
    ensures exists x :: IsLeast(x, s)
    decreases |s|
  {
    hide Less;
    var y :| y in s;
    if s == {y} {
      assert IsLeast(y, s);
    } else {
      LeastExists(s - {y});
      var x :| IsLeast(x, s - {y});
      forall z | z in s
        ensures (Less(x, y) ==> z == x || Less(x, z)) && (!Less(x, y) ==> z == y || Less(y, z))
      {
        LessIsOrder(x, y, z);
        LessIsOrder(y, x, z);
      }
      assert IsLeast(if Less(x, y) then x else y, s);
    }
  }

  /** std::set::insert. */
  method InsertAscending(s: seq<string>, x: string) returns (r: seq<string>)
    requires IsAscending(s)
    ensures IsAscending(r) && forall y :: y in r <==> y in s || y == x
  {
    hide Less;
    if x in s {
      return s;
    }
    var k := |s|;
    while k > 0 && Less(x, s[k - 1])
      invariant 0 <= k <= |s|
      invariant forall i :: k <= i < |s| ==> Less(x, s[i])
    {
      k := k - 1;
    }
    r := s[..k] + [x] + s[k..];
    assert s == s[..k] + s[k..];
    forall i | 0 <= i < k
      ensures Less(s[i], x)
    {
      LessIsOrder(s[k - 1], x, x);
      LessIsOrder(s[i], s[k - 1], x);
    }
  }
}
