/** Model and target names: trimming, case folding and provider prefixes
    (internal/routing/prefixes.go). Characters outside ASCII fold to themselves. */
module Names {
  import opened Common

  predicate IsSpace(c: char)
  {
    c == ' ' || '\t' <= c <= '\r'
  }

  function TrimLeft(s: string): string
  {
    if s != "" && IsSpace(s[0]) then TrimLeft(s[1..]) else s
  }

  function TrimRight(s: string): string
  {
    if s != "" && IsSpace(s[|s| - 1]) then TrimRight(s[..|s| - 1]) else s
  }

  function Trim(s: string): string
  {
    TrimRight(TrimLeft(s))
  }

  /** No space at either end. */
  predicate Trimmed(s: string)
  {
    s != "" ==> !IsSpace(s[0]) && !IsSpace(s[|s| - 1])
  }

  lemma {:induction false} TrimRightKeepsStart(s: string)
    requires s != "" ==> !IsSpace(s[0])
    ensures Trimmed(TrimRight(s))
  {
    if s != "" && IsSpace(s[|s| - 1]) {
      TrimRightKeepsStart(s[..|s| - 1]);
    }
  }

  lemma {:induction false} TrimLeftStarts(s: string)
    ensures var t := TrimLeft(s); t != "" ==> !IsSpace(t[0])
  {
    if s != "" && IsSpace(s[0]) {
      TrimLeftStarts(s[1..]);
    }
  }

  /** Trimming produces a trimmed name and leaves a trimmed name alone. */
  lemma {:induction false} TrimIsIdempotent(s: string)
    ensures Trimmed(Trim(s))
    ensures Trimmed(s) ==> Trim(s) == s
    ensures Trim(Trim(s)) == Trim(s)
  {
    TrimLeftStarts(s);
    TrimRightKeepsStart(TrimLeft(s));
  }

  function LowerChar(c: char): char
  {
    if 'A' <= c <= 'Z' then c - 'A' + 'a' else c
  }

  function Lower(s: string): (r: string)
    ensures |r| == |s| && forall i :: 0 <= i < |s| ==> r[i] == LowerChar(s[i])
  {
    seq(|s|, i requires 0 <= i < |s| => LowerChar(s[i]))
  }

  /** normalizeModel. */
  function Normal(model: string): string
  {
    Lower(Trim(model))
  }

  /** Normal forms do not depend on padding and are stable. */
  lemma NormalIsStable(model: string)
    ensures Normal(Trim(model)) == Normal(model)
    ensures Normal(Normal(model)) == Normal(model)
  {
    TrimIsIdempotent(model);
    var t := Trim(model);
    assert Trimmed(Lower(t)) by {
      if t != "" {
        assert Lower(t)[0] == LowerChar(t[0]) && Lower(t)[|t| - 1] == LowerChar(t[|t| - 1]);
      }
    }
    TrimIsIdempotent(Lower(t));
    assert Lower(Lower(t)) == Lower(t);
  }

  datatype Target = Target(provider: string, model: string)

  predicate HasPrefix(s: string, prefix: string)
  {
    prefix <= s
  }

  /** StripModelPrefix. */
  function Strip(name: string): (r: Option<Target>)
    ensures r.Some? ==> r.value.provider != ""
  {
    if HasPrefix(name, "github/") then Some(Target("copilot", name[7..]))
    else if HasPrefix(name, "codex/") then Some(Target("codex", name[6..]))
    else if HasPrefix(name, "kilo/") then Some(Target("kilo", name[5..]))
    else None
  }

  lemma {:induction false} TrimRightDrop(s: string, k: nat)
    requires 0 < k <= |s| && !IsSpace(s[k - 1])
    ensures |TrimRight(s)| >= k && TrimRight(s)[..k] == s[..k] && TrimRight(s)[k..] == TrimRight(s[k..])
  {
    if IsSpace(s[|s| - 1]) {
      TrimRightDrop(s[..|s| - 1], k);
      assert s[k..][..|s[k..]| - 1] == s[..|s| - 1][k..];
      assert s[..|s| - 1][..k] == s[..k];
    }
  }

  lemma {:induction false} TrimLeftSnoc(s: string, c: char)
    requires IsSpace(c)
    ensures TrimLeft(s + [c]) == if TrimLeft(s) == "" then "" else TrimLeft(s) + [c]
  {
    if s != "" && IsSpace(s[0]) {
      assert (s + [c])[1..] == s[1..] + [c];
      TrimLeftSnoc(s[1..], c);
    } else if s == "" {
      assert s + [c] == [c] && [c][1..] == "";
    }
  }

  /** Padding on the right does not change what trimming yields. */
  lemma {:induction false} TrimIgnoresRightPadding(s: string)
    ensures Trim(TrimRight(s)) == Trim(s)
  {
    if s != "" && IsSpace(s[|s| - 1]) {
      var front := s[..|s| - 1];
      assert s == front + [s[|s| - 1]];
      TrimIgnoresRightPadding(front);
      TrimLeftSnoc(front, s[|s| - 1]);
      var t := TrimLeft(front);
      if t != "" {
        assert (t + [s[|s| - 1]])[..|t|] == t;
      }
    }
  }

  lemma PrefixIgnoresRightPadding(name: string, prefix: string)
    requires prefix <= name && prefix != "" && !IsSpace(prefix[0]) && !IsSpace(prefix[|prefix| - 1])
    ensures prefix <= Trim(name) && Normal(Trim(name)[|prefix|..]) == Normal(name[|prefix|..])
  {
    var k := |prefix|;
    assert name[0] == prefix[0] && name[k - 1] == prefix[k - 1];
    TrimRightDrop(name, k);
    TrimIgnoresRightPadding(name[k..]);
    assert prefix == name[..k] == TrimRight(name)[..k];
  }

  /** A target that starts with its provider prefix, untrimmed, names the same provider and the
      same model in normal form as its trimmed form does. */
  lemma {:induction false} StripIgnoresRightPadding(name: string)
    requires Strip(name).Some?
    ensures Strip(Trim(name)).Some?
    ensures Strip(Trim(name)).value.provider == Strip(name).value.provider
    ensures Normal(Strip(Trim(name)).value.model) == Normal(Strip(name).value.model)
  {
    if HasPrefix(name, "github/") {
      PrefixIgnoresRightPadding(name, "github/");
    } else if HasPrefix(name, "codex/") {
      PrefixIgnoresRightPadding(name, "codex/");
      assert Trim(name)[0] == 'c';
    } else {
      PrefixIgnoresRightPadding(name, "kilo/");
      assert Trim(name)[0] == 'k';
    }
  }

  /** The characters that are trimmed. */
  predicate Blank(c: char)
  {
    c == ' ' || c == '\t' || c == '\n' || c == 11 as char || c == 12 as char || c == '\r'
  }

  lemma {:induction false} TrimRightSplits(s: string) returns (b: string)
    ensures s == TrimRight(s) + b && forall i :: 0 <= i < |b| ==> Blank(b[i])
  {
    b := "";
    if s != "" && IsSpace(s[|s| - 1]) {
      var rest := TrimRightSplits(s[..|s| - 1]);
      b := rest + [s[|s| - 1]];
      assert s == s[..|s| - 1] + [s[|s| - 1]];
    }
  }

  lemma {:induction false} TrimLeftSplits(s: string) returns (a: string)
    ensures s == a + TrimLeft(s) && forall i :: 0 <= i < |a| ==> Blank(a[i])
  {
    a := "";
    if s != "" && IsSpace(s[0]) {
      var rest := TrimLeftSplits(s[1..]);
      a := [s[0]] + rest;
      assert s == [s[0]] + s[1..];
    }
  }

  /** Trimming takes blanks off both ends, all of them and nothing else. */
  lemma {:induction false} TrimsExactly(s: string) returns (a: string, b: string)
    ensures s == a + Trim(s) + b
    ensures (forall i :: 0 <= i < |a| ==> Blank(a[i])) && (forall i :: 0 <= i < |b| ==> Blank(b[i]))
    ensures Trim(s) != "" ==> !Blank(Trim(s)[0]) && !Blank(Trim(s)[|Trim(s)| - 1])
  {
    a := TrimLeftSplits(s);
    b := TrimRightSplits(TrimLeft(s));
    TrimIsIdempotent(s);
  }

  /** Two names fold together exactly when they differ in nothing but the case of letters. */
  lemma {:induction false} FoldsExactly(a: string, b: string)
    ensures Lower(a) == Lower(b) <==>
      && |a| == |b|
      && forall i :: 0 <= i < |a| ==>
           || a[i] == b[i]
           || ('A' <= a[i] <= 'Z' && b[i] as int == a[i] as int + 32)
           || ('A' <= b[i] <= 'Z' && a[i] as int == b[i] as int + 32)
  {
    if Lower(a) == Lower(b) {
      forall i | 0 <= i < |a| ensures LowerChar(a[i]) == LowerChar(b[i]) {
        assert Lower(a)[i] == Lower(b)[i];
      }
    }
  }

  /** What each provider prefix stands for. */
  lemma {:induction false} PrefixesName(model: string)
    ensures Strip("github/" + model) == Some(Target("copilot", model))
    ensures Strip("codex/" + model) == Some(Target("codex", model))
    ensures Strip("kilo/" + model) == Some(Target("kilo", model))
  {
    assert ("github/" + model)[..7] == "github/" && ("github/" + model)[7..] == model;
    assert ("codex/" + model)[..6] == "codex/" && ("codex/" + model)[6..] == model && ("codex/" + model)[0] == 'c';
    assert ("kilo/" + model)[..5] == "kilo/" && ("kilo/" + model)[5..] == model && ("kilo/" + model)[0] == 'k';
  }
}
