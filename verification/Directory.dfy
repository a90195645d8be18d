/** The country filter of the generator: the comma-separated `NORD_COUNTRIES`
    value is turned into a list of wanted codes, and the country directory is
    narrowed to the entries whose code is wanted, in directory order. */
module Directory {
  import opened Text

  /** One entry of the NordVPN country directory (`/v1/countries`). */
  datatype Country = Country(id: int, code: string, name: string)

  /** A code as it appears in the wanted list: trimmed, upper-case, comma-free. */
  predicate IsWantedForm(w: string) {
    && ',' !in w
    && Trimmed(w)
    && Upper(w) == w
  }

  /** The wanted codes: the pieces of `env` between commas, each stripped and upper-cased. */
  function WantedCodes(env: string): (wanted: seq<string>)
    ensures |wanted| == |Split(env, ',')| >= 1
    ensures forall i :: 0 <= i < |wanted| ==> IsWantedForm(wanted[i])
  {
    var pieces := Split(env, ',');
    var wanted := seq(|pieces|, i requires 0 <= i < |pieces| => Upper(Strip(pieces[i])));
    assert forall i :: 0 <= i < |wanted| ==> IsWantedForm(wanted[i]) by {
      forall i | 0 <= i < |wanted|
        ensures IsWantedForm(wanted[i])
      {
        WantedPieceForm(pieces[i]);
      }
    }
    wanted
  }

  /** Stripping and upper-casing a comma-free piece gives a code in wanted form. */
  lemma WantedPieceForm(piece: string)
    requires ',' !in piece
    ensures IsWantedForm(Upper(Strip(piece)))
  {
    var t := Strip(piece);
    StripKeepsAbsence(piece, ',');
    CaseKeepsNonLetters(t, ',');
    UpperIdempotent(t);
    var u := Upper(t);
    if u != [] {
      var _ := StripIsInfix(piece);
      UpperCharKeepsSpace(t[0]);
      UpperCharKeepsSpace(t[|t| - 1]);
    }
  }

  /** A list written as comma-separated codes is read back code by code: the
      i-th wanted code is the i-th written code, stripped and upper-cased. In
      particular a code already in wanted form is read back unchanged. */
  lemma WantedCodesOfList(codes: seq<string>)
    requires |codes| >= 1
    requires forall i :: 0 <= i < |codes| ==> ',' !in codes[i]
    ensures |WantedCodes(Join(codes, ','))| == |codes|
    ensures forall i :: 0 <= i < |codes| ==> WantedCodes(Join(codes, ','))[i] == Upper(Strip(codes[i]))
    ensures forall i :: 0 <= i < |codes| && IsWantedForm(codes[i]) ==> WantedCodes(Join(codes, ','))[i] == codes[i]
  {
    SplitJoin(codes, ',');
    forall i | 0 <= i < |codes| && IsWantedForm(codes[i])
      ensures Upper(Strip(codes[i])) == codes[i]
    {
      StripTrimmed(codes[i]);
    }
  }

  /** Whether a directory country is requested: its upper-cased code is among the wanted codes. */
  predicate Wanted(c: Country, wanted: seq<string>) {
    Upper(c.code) in wanted
  }

  /** `r` is obtained from `s` by deleting elements, keeping the order of the rest. */
  ghost predicate IsSubsequence<T>(r: seq<T>, s: seq<T>)
    decreases |s|
  {
    if |r| == 0 then true
    else if |s| == 0 then false
    else (r[0] == s[0] && IsSubsequence(r[1..], s[1..])) || IsSubsequence(r, s[1..])
  }

  /** The target countries: the wanted directory entries, in directory order. */
  function Select(directory: seq<Country>, wanted: seq<string>): (targets: seq<Country>)
    ensures forall c :: c in targets <==> c in directory && Wanted(c, wanted)
    ensures |targets| <= |directory|
    decreases |directory|
  {
    if |directory| == 0 then []
    else
      var rest := Select(directory[1..], wanted);
      assert directory == [directory[0]] + directory[1..];
      if Wanted(directory[0], wanted) then [directory[0]] + rest else rest
  }

  /** Every occurrence of a wanted entry is kept, and nothing else: each
      country occurs among the targets as often as in the directory when it is
      wanted, and not at all otherwise. */
  lemma {:induction false} SelectCounts(directory: seq<Country>, wanted: seq<string>)
    ensures forall c :: multiset(Select(directory, wanted))[c] == if Wanted(c, wanted) then multiset(directory)[c] else 0
    decreases |directory|
  {
    if |directory| > 0 {
      var d := directory[0];
      var rest := Select(directory[1..], wanted);
      SelectCounts(directory[1..], wanted);
      assert directory == [d] + directory[1..];
      assert multiset(directory) == multiset{d} + multiset(directory[1..]);
      if Wanted(d, wanted) {
        assert multiset(Select(directory, wanted)) == multiset{d} + multiset(rest);
      } else {
        assert Select(directory, wanted) == rest;
      }
    }
  }

  /** The targets keep directory order: they are the directory with the
      unwanted entries deleted. */
  lemma {:induction false} SelectKeepsOrder(directory: seq<Country>, wanted: seq<string>)
    ensures IsSubsequence(Select(directory, wanted), directory)
    decreases |directory|
  {
    if |directory| > 0 {
      var rest := Select(directory[1..], wanted);
      SelectKeepsOrder(directory[1..], wanted);
      if Wanted(directory[0], wanted) {
        var r := [directory[0]] + rest;
        assert r[1..] == rest;
      } else {
        SubsequenceOfTail(rest, directory);
      }
    }
  }

  /** A subsequence of the tail is a subsequence of the whole. */
  lemma SubsequenceOfTail<T>(r: seq<T>, s: seq<T>)
    requires |s| > 0 && IsSubsequence(r, s[1..])
    ensures IsSubsequence(r, s)
  {
  }

  /** Selection distributes over concatenation of directory listings: the
      entries of an earlier part always precede those of a later part. */
  lemma {:induction false} SelectAppend(a: seq<Country>, b: seq<Country>, wanted: seq<string>)
    ensures Select(a + b, wanted) == Select(a, wanted) + Select(b, wanted)
    decreases |a|
  {
    if |a| > 0 {
      assert (a + b)[1..] == a[1..] + b;
      SelectAppend(a[1..], b, wanted);
    } else {
      assert a + b == b;
    }
  }
}
