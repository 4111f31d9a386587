/** Filtering the discovery response: trim, validate, drop repeats, keep order. */
module Discovery {
  import opened Wrappers
  import opened HostPort
  import opened Errors

  /** The Unicode White_Space property, which `str::trim` strips. */
  predicate IsSpace(c: char) {
    var u := c as int;
    0x09 <= u <= 0x0D || u == 0x20 || u == 0x85 || u == 0xA0 || u == 0x1680 || 0x2000 <= u <= 0x200A
    || u == 0x2028 || u == 0x2029 || u == 0x202F || u == 0x205F || u == 0x3000
  }

  /** The table of that property, all 25 code points. */
  const WHITE_SPACE: set<int> :=
    {0x0009, 0x000A, 0x000B, 0x000C, 0x000D, 0x0020, 0x0085, 0x00A0, 0x1680,
     0x2000, 0x2001, 0x2002, 0x2003, 0x2004, 0x2005, 0x2006, 0x2007, 0x2008, 0x2009, 0x200A,
     0x2028, 0x2029, 0x202F, 0x205F, 0x3000}

  lemma SpaceTable(c: char)
    ensures IsSpace(c) <==> c as int in WHITE_SPACE
  {
  }

  function TrimStart(s: string): (r: string)
    ensures r != "" ==> !IsSpace(r[0])
    ensures |r| <= |s| && r == s[|s| - |r|..]
  {
    if s != "" && IsSpace(s[0]) then TrimStart(s[1..]) else s
  }

  function TrimEnd(s: string): (r: string)
    ensures r != "" ==> !IsSpace(r[|r| - 1])
    ensures |r| <= |s| && r == s[..|r|]
  {
    if s != "" && IsSpace(s[|s| - 1]) then TrimEnd(s[..|s| - 1]) else s
  }

  function Trim(s: string): (r: string)
    ensures r != "" ==> !IsSpace(r[0]) && !IsSpace(r[|r| - 1])
  {
    TrimEnd(TrimStart(s))
  }

  predicate AllSpace(s: string) {
    forall i :: 0 <= i < |s| ==> IsSpace(s[i])
  }

  lemma {:induction false} TrimStartCuts(s: string, i: nat)
    requires i < |s| - |TrimStart(s)|
    ensures IsSpace(s[i])
  {
    hide IsSpace;
    if i > 0 {
      TrimStartCuts(s[1..], i - 1);
    }
  }

  lemma {:induction false} TrimEndCuts(s: string, i: nat)
    requires |TrimEnd(s)| <= i < |s|
    ensures IsSpace(s[i])
  {
    hide IsSpace;
    if i < |s| - 1 {
      TrimEndCuts(s[..|s| - 1], i);
    }
  }

  /** Trimming takes white space off both ends and nothing else. */
  lemma TrimCutsOnlySpace(s: string) returns (lead: string, tail: string)
    ensures s == lead + Trim(s) + tail && AllSpace(lead) && AllSpace(tail)
  {
    hide IsSpace, TrimStart, TrimEnd;
    var t := TrimStart(s);
    lead, tail := s[..|s| - |t|], t[|TrimEnd(t)|..];
    forall i | 0 <= i < |lead| ensures IsSpace(lead[i]) {
      TrimStartCuts(s, i);
    }
    forall i | 0 <= i < |tail| ensures IsSpace(tail[i]) {
      TrimEndCuts(t, |TrimEnd(t)| + i);
    }
    assert t == TrimEnd(t) + tail;
    assert s == lead + t;
  }

  lemma TrimTwice(s: string)
    ensures Trim(Trim(s)) == Trim(s)
  {
  }

  /** Entry `i` is kept: its trimmed text is a valid endpoint and does not occur earlier. */
  predicate Kept(raw: seq<string>, i: nat)
    requires i < |raw|
  {
    Accepted(Trim(raw[i])) && forall j :: 0 <= j < i ==> Trim(raw[j]) != Trim(raw[i])
  }

  /** The kept entries among the first `n`, trimmed, in discovery order. */
  function Firsts(raw: seq<string>, n: nat): seq<string>
    requires n <= |raw|
  {
    if n == 0 then []
    else if Kept(raw, n - 1) then Firsts(raw, n - 1) + [Trim(raw[n - 1])]
    else Firsts(raw, n - 1)
  }

  /** A usable entry of the response: valid, and there after trimming. */
  ghost predicate Listed(raw: seq<string>, e: string) {
    Accepted(e) && exists j :: 0 <= j < |raw| && Trim(raw[j]) == e
  }

  /** Among the first `n`, some entry with this trimmed text precedes every entry with that one. */
  ghost predicate ListedBefore(raw: seq<string>, n: nat, e: string, f: string)
    requires n <= |raw|
  {
    exists a :: 0 <= a < n && Trim(raw[a]) == e && forall b :: 0 <= b < n && Trim(raw[b]) == f ==> a < b
  }

  /**
   `parse_endpoints`, from the decoded list on; `None` stands for a body that is not a JSON list.
   What it returns are the usable entries: all of them, each once, in order of first occurrence.
   */
  method ParseEndpoints(decoded: Option<seq<string>>) returns (r: Result<seq<string>, FallbackReason>)
    ensures r == Parsed(decoded)
    ensures decoded.None? <==> r == Err(InvalidResponse(NotJson))
    ensures r.Ok? ==> decoded.Some? && r.value != [] && forall e :: e in r.value <==> Listed(decoded.value, e)
    ensures r.Ok? ==> Distinct(r.value)
    ensures r.Ok? ==>
              forall i, j :: 0 <= i < j < |r.value| ==>
                ListedBefore(decoded.value, |decoded.value|, r.value[i], r.value[j])
    ensures r.Err? && decoded.Some? ==>
              r.error == InvalidResponse(NoUsableEndpoints(|decoded.value|)) && forall e :: !Listed(decoded.value, e)
  {
    ParsedMeans(decoded);
    hide HostPort.Accepted, Trim;
    if decoded.None? {
      return Err(InvalidResponse(NotJson));
    }
    var raw := decoded.value;
    var out: seq<string> := [];
    var i := 0;
    while i < |raw|
      invariant i <= |raw| && out == Firsts(raw, i)
    {
      var entry := Trim(raw[i]);
      EmptyIsRejected();
      FirstsMembers(raw, i, entry);
      if entry != "" && Accepted(entry) && entry !in out {
        out := out + [entry];
      }
      i := i + 1;
    }
    if out == [] {
      return Err(InvalidResponse(NoUsableEndpoints(|raw|)));
    }
    return Ok(out);
  }

  lemma EmptyIsRejected()
    ensures !Accepted("")
  {
    assert RSplitOnce("", ':') == None;
  }

  function Parsed(decoded: Option<seq<string>>): Result<seq<string>, FallbackReason> {
    match decoded
    case None => Err(InvalidResponse(NotJson))
    case Some(raw) =>
      if Firsts(raw, |raw|) == [] then Err(InvalidResponse(NoUsableEndpoints(|raw|)))
      else Ok(Firsts(raw, |raw|))
  }

  /** Nothing invalid is kept and nothing valid is lost. */
  lemma {:induction false} FirstsMembers(raw: seq<string>, n: nat, e: string)
    requires n <= |raw|
    ensures e in Firsts(raw, n) <==> Accepted(e) && exists j :: 0 <= j < n && Trim(raw[j]) == e
  {
    hide HostPort.Accepted, Trim;
    if n > 0 {
      FirstsMembers(raw, n - 1, e);
      if Accepted(e) && Trim(raw[n - 1]) == e && !Kept(raw, n - 1) {
        var j :| 0 <= j < n - 1 && Trim(raw[j]) == Trim(raw[n - 1]);
      }
    }
  }

  ghost predicate Distinct<T>(s: seq<T>) {
    forall i, j :: 0 <= i < j < |s| ==> s[i] != s[j]
  }

  lemma {:induction false} FirstsDistinct(raw: seq<string>, n: nat)
    requires n <= |raw|
    ensures Distinct(Firsts(raw, n))
  {
    hide HostPort.Accepted, Trim;
    if n > 0 {
      FirstsDistinct(raw, n - 1);
      FirstsMembers(raw, n - 1, Trim(raw[n - 1]));
    }
  }

  lemma {:induction false} FirstsOrdered(raw: seq<string>, n: nat)
    requires n <= |raw|
    ensures forall i, j :: 0 <= i < j < |Firsts(raw, n)| ==> ListedBefore(raw, n, Firsts(raw, n)[i], Firsts(raw, n)[j])
  {
    hide HostPort.Accepted, Trim;
    if n > 0 {
      FirstsOrdered(raw, n - 1);
      var front, out := Firsts(raw, n - 1), Firsts(raw, n);
      forall i, j | 0 <= i < j < |out| ensures ListedBefore(raw, n, out[i], out[j]) {
        assert out[i] == front[i] && front[i] in front;
        FirstsMembers(raw, n - 1, front[i]);
        if j < |front| {
          assert ListedBefore(raw, n - 1, front[i], front[j]) && out[j] == front[j];
        } else {
          assert Kept(raw, n - 1) && out[j] == Trim(raw[n - 1]);
        }
      }
    }
  }

  lemma ParsedMeans(decoded: Option<seq<string>>)
    ensures var r := Parsed(decoded);
            && (decoded.None? <==> r == Err(InvalidResponse(NotJson)))
            && (r.Ok? ==> decoded.Some? && r.value != [] && Distinct(r.value)
                          && (forall e :: e in r.value <==> Listed(decoded.value, e))
                          && forall i, j :: 0 <= i < j < |r.value| ==>
                               ListedBefore(decoded.value, |decoded.value|, r.value[i], r.value[j]))
            && (r.Err? && decoded.Some? ==>
                  r.error == InvalidResponse(NoUsableEndpoints(|decoded.value|))
                  && forall e :: !Listed(decoded.value, e))
  {
    hide HostPort.Accepted, Trim, Firsts;
    if decoded.Some? {
      var raw := decoded.value;
      FirstsDistinct(raw, |raw|);
      FirstsOrdered(raw, |raw|);
      forall e ensures e in Firsts(raw, |raw|) <==> Listed(raw, e) {
        FirstsMembers(raw, |raw|, e);
      }
    }
  }

  /** Filtering a prefix of the response gives a prefix of the result. */
  lemma {:induction false} FirstsOfPrefix(raw: seq<string>, n: nat)
    requires n <= |raw|
    ensures Firsts(raw[..n], n) == Firsts(raw, n)
    ensures Firsts(raw, n) <= Firsts(raw, |raw|)
  {
    hide HostPort.Accepted, Trim;
    FirstsGrow(raw, n, |raw|);
    FirstsAgree(raw[..n], raw, n);
  }

  lemma {:induction false} FirstsAgree(a: seq<string>, b: seq<string>, n: nat)
    requires n <= |a| && n <= |b| && a[..n] == b[..n]
    ensures Firsts(a, n) == Firsts(b, n)
  {
    hide HostPort.Accepted, Trim;
    if n > 0 {
      assert a[..n - 1] == a[..n][..n - 1] == b[..n][..n - 1] == b[..n - 1];
      FirstsAgree(a, b, n - 1);
      assert forall j :: 0 <= j < n ==> a[j] == a[..n][j] == b[j];
      assert Kept(a, n - 1) <==> Kept(b, n - 1);
    }
  }

  lemma {:induction false} FirstsGrow(raw: seq<string>, m: nat, n: nat)
    requires m <= n <= |raw|
    ensures Firsts(raw, m) <= Firsts(raw, n)
    decreases n
  {
    hide HostPort.Accepted, Trim;
    if m < n {
      FirstsGrow(raw, m, n - 1);
    }
  }

  /** Filtering the result again changes nothing. */
  lemma FirstsTwice(raw: seq<string>)
    ensures var out := Firsts(raw, |raw|); Firsts(out, |out|) == out
  {
    hide HostPort.Accepted, Trim;
    var out := Firsts(raw, |raw|);
    FirstsDistinct(raw, |raw|);
    forall i | 0 <= i < |out| ensures Accepted(out[i]) && Trim(out[i]) == out[i] {
      FirstsMembers(raw, |raw|, out[i]);
      var j :| 0 <= j < |raw| && Trim(raw[j]) == out[i];
      TrimTwice(raw[j]);
    }
    FirstsOfClean(out, |out|);
  }

  lemma {:induction false} FirstsOfClean(out: seq<string>, n: nat)
    requires n <= |out| && Distinct(out)
    requires forall i :: 0 <= i < |out| ==> Accepted(out[i]) && Trim(out[i]) == out[i]
    ensures Firsts(out, n) == out[..n]
  {
    hide HostPort.Accepted, Trim;
    if n > 0 {
      FirstsOfClean(out, n - 1);
      assert Kept(out, n - 1);
      assert out[..n] == out[..n - 1] + [out[n - 1]];
    }
  }
}
