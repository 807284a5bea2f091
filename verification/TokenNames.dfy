/** Paths and token names: strings cut at a separator and put together again
    (consensus/transactions.go). */
module TokenNames {
  import opened Prelude

  // ----- Splitting and joining

  function Split(s: string, sep: char): (parts: seq<string>)
    ensures |parts| > 0
  {
    if |s| == 0 then [""]
    else
      var rest := Split(s[1..], sep);
      if s[0] == sep then [""] + rest else [[s[0]] + rest[0]] + rest[1..]
  }

  function Join(parts: seq<string>, sep: char): string {
    if |parts| == 0 then ""
    else if |parts| == 1 then parts[0]
    else parts[0] + [sep] + Join(parts[1..], sep)
  }

  lemma {:induction false} JoinOfSplit(s: string, sep: char)
    ensures Join(Split(s, sep), sep) == s
  {
    if |s| > 0 {
      var rest := Split(s[1..], sep);
      JoinOfSplit(s[1..], sep);
      if s[0] == sep {
        assert Split(s, sep)[1..] == rest;
      } else if |rest| > 1 {
        assert Split(s, sep)[1..] == rest[1..];
      }
    }
  }

  lemma {:induction false} SplitPartsAreClean(s: string, sep: char)
    ensures forall i :: 0 <= i < |Split(s, sep)| ==> sep !in Split(s, sep)[i]
  {
    if |s| > 0 {
      SplitPartsAreClean(s[1..], sep);
    }
  }

  lemma {:induction false} SplitClean(s: string, sep: char)
    requires sep !in s
    ensures Split(s, sep) == [s]
  {
    if |s| > 0 {
      SplitClean(s[1..], sep);
      assert s == [s[0]] + s[1..];
    }
  }

  /** A clean part in front of a separator is the first part. */
  lemma {:induction false} SplitFirst(part: string, rest: string, sep: char)
    requires sep !in part
    ensures Split(part + [sep] + rest, sep) == [part] + Split(rest, sep)
  {
    var s := part + [sep] + rest;
    if |part| == 0 {
      assert s[1..] == rest;
    } else {
      assert s[1..] == part[1..] + [sep] + rest;
      SplitFirst(part[1..], rest, sep);
      assert part == [part[0]] + part[1..];
    }
  }

  lemma {:induction false} SplitOfJoin(parts: seq<string>, sep: char)
    requires |parts| > 0 && forall i :: 0 <= i < |parts| ==> sep !in parts[i]
    ensures Split(Join(parts, sep), sep) == parts
  {
    if |parts| == 1 {
      SplitClean(parts[0], sep);
    } else {
      SplitOfJoin(parts[1..], sep);
      SplitFirst(parts[0], Join(parts[1..], sep), sep);
    }
  }

  lemma {:induction false} JoinSnoc(parts: seq<string>, last: string, sep: char)
    requires |parts| > 0
    ensures Join(parts + [last], sep) == Join(parts, sep) + [sep] + last
  {
    if |parts| > 1 {
      JoinSnoc(parts[1..], last, sep);
      assert (parts + [last])[1..] == parts[1..] + [last];
    }
  }

  lemma {:induction false} SplitCount(s: string, sep: char)
    ensures |Split(s, sep)| > 1 <==> sep in s
  {
    if |s| > 0 {
      SplitCount(s[1..], sep);
    }
  }

  // ----- Paths

  function TrimSlash(path: string): string {
    if |path| > 0 && path[0] == '/' then path[1..] else path
  }

  /** One leading slash is dropped; any other empty component is an error. */
  method DecodePath(path: string) returns (r: Result<seq<string>>)
    ensures r == Decoded(path)
  {
    var trimmed := TrimSlash(path);
    if trimmed == "" {
      return Ok([]);
    }
    var split := Split(trimmed, '/');
    for i := 0 to |split|
      invariant forall k :: 0 <= k < i ==> split[k] != ""
    {
      if split[i] == "" {
        return Err("malformed path string containing repeated separator");
      }
    }
    r := Ok(split);
  }

  function Decoded(path: string): Result<seq<string>> {
    var trimmed := TrimSlash(path);
    if trimmed == "" then Ok([])
    else if forall k :: 0 <= k < |Split(trimmed, '/')| ==> Split(trimmed, '/')[k] != "" then Ok(Split(trimmed, '/'))
    else Err("malformed path string containing repeated separator")
  }

  predicate PathPart(part: string) {
    part != "" && '/' !in part
  }

  /** A separator with another one, or nothing, after it. */
  predicate Dangling(s: string, sep: char, i: nat) {
    i < |s| && s[i] == sep && (i + 1 == |s| || s[i + 1] == sep)
  }

  /** The first part is empty exactly when the string is empty or starts with a separator. */
  lemma FirstPartEmpty(s: string, sep: char)
    ensures Split(s, sep)[0] == "" <==> s == "" || s[0] == sep
  {
  }

  /** Some part other than the first is empty. */
  ghost predicate LaterEmpty(parts: seq<string>) {
    exists k :: 0 < k < |parts| && parts[k] == ""
  }

  ghost predicate Dangles(s: string, sep: char) {
    exists i: nat :: Dangling(s, sep, i)
  }

  /** That is so exactly when some separator dangles. */
  lemma {:induction false} LaterPartEmpty(s: string, sep: char)
    ensures LaterEmpty(Split(s, sep)) <==> Dangles(s, sep)
  {
    if |s| > 0 {
      LaterPartEmpty(s[1..], sep);
      FirstPartEmpty(s[1..], sep);
      DanglesStep(s, sep);
      LaterEmptyStep(Split(s, sep), Split(s[1..], sep), s[0] == sep);
    }
  }

  lemma DanglesStep(s: string, sep: char)
    requires |s| > 0
    ensures Dangles(s, sep) <==> Dangling(s, sep, 0) || Dangles(s[1..], sep)
  {
    if i: nat :| Dangling(s, sep, i) {
      assert i > 0 ==> Dangling(s[1..], sep, i - 1);
    }
    if i: nat :| Dangling(s[1..], sep, i) {
      assert Dangling(s, sep, i + 1);
    }
  }

  lemma LaterEmptyStep(parts: seq<string>, later: seq<string>, cut: bool)
    requires |later| > 0 && |parts| > 0 && parts[1..] == if cut then later else later[1..]
    ensures LaterEmpty(parts) <==> (cut && later[0] == "") || LaterEmpty(later)
  {
    var shift := if cut then 1 else 0;
    if k :| 0 < k < |parts| && parts[k] == "" {
      assert parts[k] == parts[1..][k - 1] == later[k - shift];
    }
    if k :| 0 < k < |later| && later[k] == "" {
      assert parts[k + shift] == parts[1..][k + shift - 1] == later[k];
    }
    if cut && later[0] == "" {
      assert parts[1] == parts[1..][0] == later[0];
    }
  }

  /** Decoding fails exactly on two slashes in a row or a slash at the end, a single slash excepted. */
  lemma DecodingFailsIff(path: string)
    ensures Decoded(path).Err? <==> path != "/" && Dangles(path, '/')
  {
    var s := TrimSlash(path);
    LaterPartEmpty(s, '/');
    FirstPartEmpty(s, '/');
    if s != path {
      DanglesStep(path, '/');
    }
  }

  /** A decoded path consists of non-empty parts without slashes that join to the input, up to one slash in front;
      and every such list of parts is what its joined form decodes to. */
  lemma DecodedPathsRoundTrip(path: string, parts: seq<string>)
    ensures Decoded(path).Ok? ==>
              && (path == Join(Decoded(path).value, '/') || path == "/" + Join(Decoded(path).value, '/'))
              && forall i :: 0 <= i < |Decoded(path).value| ==> PathPart(Decoded(path).value[i])
    ensures (forall i :: 0 <= i < |parts| ==> PathPart(parts[i])) ==>
              && Decoded(Join(parts, '/')) == Ok(parts)
              && Decoded("/" + Join(parts, '/')) == Ok(parts)
  {
    if Decoded(path).Ok? {
      JoinOfSplit(TrimSlash(path), '/');
      SplitPartsAreClean(TrimSlash(path), '/');
    }
    if forall i :: 0 <= i < |parts| ==> PathPart(parts[i]) {
      var s := Join(parts, '/');
      if |parts| > 0 {
        JoinStartsWith(parts, '/');
        SplitOfJoin(parts, '/');
      }
      assert TrimSlash(s) == s;
      assert TrimSlash("/" + s) == s;
    }
  }

  lemma JoinStartsWith(parts: seq<string>, sep: char)
    requires |parts| > 0 && |parts[0]| > 0
    ensures |Join(parts, sep)| > 0 && Join(parts, sep)[0] == parts[0][0]
  {
  }

  // ----- Token names

  datatype TokenName = TokenName(did: string, local: string) {
    function ToString(): string {
      Join([did, local], ':')
    }

    predicate IsCanonical() {
      did != "" && local != ""
    }
  }

  /** Everything before the last colon is the chain tree's id. */
  function FromString(s: string): TokenName {
    var parts := Split(s, ':');
    TokenName(Join(parts[..|parts| - 1], ':'), parts[|parts| - 1])
  }

  lemma PrintedName(name: TokenName)
    ensures name.ToString() == name.did + ":" + name.local
  {
    assert Join([name.local], ':') == name.local;
    assert [name.did, name.local][1..] == [name.local];
  }

  /** Parsing and printing gives the string back exactly when it holds a colon. */
  lemma ParseThenPrint(s: string)
    ensures FromString(s).ToString() == s <==> ':' in s
    ensures ':' !in FromString(s).local
  {
    var parts := Split(s, ':');
    JoinOfSplit(s, ':');
    SplitCount(s, ':');
    SplitPartsAreClean(s, ':');
    PrintedName(FromString(s));
    if |parts| > 1 {
      JoinSnoc(parts[..|parts| - 1], parts[|parts| - 1], ':');
      assert parts == parts[..|parts| - 1] + [parts[|parts| - 1]];
    } else {
      assert |FromString(s).ToString()| == |s| + 1;
    }
  }

  /** Printing and parsing gives the name back exactly when its local part has no colon. */
  lemma PrintThenParse(name: TokenName)
    ensures FromString(name.ToString()) == name <==> ':' !in name.local
  {
    PrintedName(name);
    ParseThenPrint(name.ToString());
    if ':' !in name.local {
      LastPart(name.did, name.local);
    }
  }

  lemma {:induction false} LastPart(did: string, local: string)
    requires ':' !in local
    ensures FromString(did + ":" + local) == TokenName(did, local)
  {
    var parts := Split(did, ':');
    JoinOfSplit(did, ':');
    SplitPartsAreClean(did, ':');
    JoinSnoc(parts, local, ':');
    SplitOfJoin(parts + [local], ':');
    assert (parts + [local])[..|parts|] == parts;
  }
}
