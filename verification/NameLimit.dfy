/** Name normalisation (fixK8sNameLimit in mainhandler/cronjobhandler.go), on the bytes of a Go string. The regular
    expression works on characters, but every byte of a character outside ASCII is outside its class as well, and
    so is every byte of one cut in half by the limit, so replacing runs of characters replaces runs of bytes. */
module NameLimit {

  newtype Byte = b: int | 0 <= b < 256

  const DASH: Byte := 45

  predicate Lower(b: Byte) { 97 <= b <= 122 }

  predicate Upper(b: Byte) { 65 <= b <= 90 }

  predicate Digit(b: Byte) { 48 <= b <= 57 }

  predicate Alphanumeric(b: Byte) {
    Lower(b) || Upper(b) || Digit(b)
  }

  /** The class [A-Za-z0-9-]. */
  predicate Allowed(b: Byte) {
    Alphanumeric(b) || b == DASH
  }

  function ToLowerByte(b: Byte): Byte {
    if Upper(b) then b + 32 else b
  }

  /** "invalid name was given" */
  const INVALID_NAME: seq<Byte> :=
    [105, 110, 118, 97, 108, 105, 100, 32, 110, 97, 109, 101, 32, 119, 97, 115, 32, 103, 105, 118, 101, 110]

  /** Without the dashes at the end. */
  ghost function Trimmed(name: seq<Byte>): (r: seq<Byte>)
    ensures r <= name && (r != [] ==> r[|r| - 1] != DASH)
  {
    if name != [] && name[|name| - 1] == DASH then Trimmed(name[..|name| - 1]) else name
  }

  /** The name that is normalised: cut to the limit and trimmed, or the substitute for an empty one. */
  ghost function Base(name: seq<Byte>, limit: nat): (r: seq<Byte>)
    ensures r != [] && r[|r| - 1] != DASH
  {
    var cut := if |name| > limit then name[..limit] else name;
    if Trimmed(cut) == [] then INVALID_NAME else Trimmed(cut)
  }

  /** Each maximal run of bytes outside the class becomes one dash. */
  ghost function Collapsed(s: seq<Byte>): seq<Byte> {
    if s == [] then []
    else
      var n := |s| - 1;
      if Allowed(s[n]) then Collapsed(s[..n]) + [s[n]]
      else if n > 0 && !Allowed(s[n - 1]) then Collapsed(s[..n])
      else Collapsed(s[..n]) + [DASH]
  }

  ghost function Lowered(s: seq<Byte>): seq<Byte> {
    seq(|s|, i requires 0 <= i < |s| => ToLowerByte(s[i]))
  }

  ghost function Fixed(name: seq<Byte>, limit: nat): seq<Byte> {
    Lowered(Collapsed(Base(name, limit)))
  }

  method ReplaceDisallowed(s: seq<Byte>) returns (r: seq<Byte>)
    ensures r == Collapsed(s)
  {
    r := [];
    for i := 0 to |s|
      invariant r == Collapsed(s[..i])
    {
      assert s[..i + 1][..i] == s[..i];
      if Allowed(s[i]) {
        r := r + [s[i]];
      } else if i == 0 || Allowed(s[i - 1]) {
        r := r + [DASH];
      }
    }
    assert s[..|s|] == s;
  }

  method FixK8sNameLimit(name: seq<Byte>, nameLimit: nat) returns (r: seq<Byte>)
    ensures r == Fixed(name, nameLimit)
  {
    var jobName := name;
    if |jobName| > nameLimit {
      jobName := jobName[..nameLimit];
    }
    ghost var cut := jobName;
    var lastIdx := |jobName| - 1;
    while lastIdx >= 0 && jobName[lastIdx] == DASH
      invariant lastIdx == |jobName| - 1
      invariant Trimmed(jobName) == Trimmed(cut)
    {
      jobName := jobName[..lastIdx];
      lastIdx := |jobName| - 1;
    }
    if lastIdx == -1 {
      jobName := INVALID_NAME;
    }
    jobName := ReplaceDisallowed(jobName);
    r := seq(|jobName|, i requires 0 <= i < |jobName| => ToLowerByte(jobName[i]));
  }

  method FixK8sCronJobNameLimit(name: seq<Byte>) returns (r: seq<Byte>)
    ensures r == Fixed(name, 52)
  {
    r := FixK8sNameLimit(name, 52);
  }

  // ---------------------------------------------------------------- what the result looks like

  predicate LabelByte(b: Byte) {
    Lower(b) || Digit(b) || b == DASH
  }

  lemma {:induction false} CollapsedShape(s: seq<Byte>)
    ensures var r := Collapsed(s);
            && |r| <= |s| && (s != [] ==> r != [])
            && (forall i | 0 <= i < |r| :: Allowed(r[i]))
            && (s != [] ==> r[|r| - 1] == if Allowed(s[|s| - 1]) then s[|s| - 1] else DASH)
            && (s != [] ==> r[0] == if Allowed(s[0]) then s[0] else DASH)
  {
    if s != [] {
      CollapsedShape(s[..|s| - 1]);
    }
  }

  /** The result is never empty, consists of lower-case letters, digits and dashes, is no longer than the limit (or
      than the substitute name), and ends in a dash exactly when the trimmed name ends in a byte outside the
      class [A-Za-z0-9-]: "don't end with '-'" is not kept then. */
  lemma FixedShape(name: seq<Byte>, limit: nat)
    ensures var r := Fixed(name, limit);
            && r != [] && |r| <= (if limit > 22 then limit else 22)
            && (forall i | 0 <= i < |r| :: LabelByte(r[i]))
            && (r[|r| - 1] == DASH <==> !Allowed(Base(name, limit)[|Base(name, limit)| - 1]))
  {
    CollapsedShape(Base(name, limit));
  }

  lemma {:induction false} CollapsedAppend(a: seq<Byte>, b: seq<Byte>)
    requires a == [] || b == [] || Allowed(a[|a| - 1]) || Allowed(b[0])
    ensures Collapsed(a + b) == Collapsed(a) + Collapsed(b)
  {
    if b == [] {
      assert a + b == a;
    } else {
      var n := |b| - 1;
      assert (a + b)[..|a + b| - 1] == a + b[..n];
      CollapsedAppend(a, b[..n]);
    }
  }

  lemma {:induction false} RunCollapses(s: seq<Byte>)
    requires s != [] && forall i | 0 <= i < |s| :: !Allowed(s[i])
    ensures Collapsed(s) == [DASH]
  {
    if |s| > 1 {
      RunCollapses(s[..|s| - 1]);
    }
  }

  /** The classes of bytes, as characters. */
  lemma ClassesExactly(b: Byte)
    ensures var c := b as int as char;
            && (Allowed(b) <==> 'A' <= c <= 'Z' || 'a' <= c <= 'z' || '0' <= c <= '9' || c == '-')
            && (LabelByte(b) <==> 'a' <= c <= 'z' || '0' <= c <= '9' || c == '-')
            && ToLowerByte(b) as int as char == if 'A' <= c <= 'Z' then ((c as int) + 32) as char else c
  {
  }

  /** What the replacement does: a run of bytes outside the class, between bytes inside it, becomes one dash, and the
      bytes inside the class stay. */
  lemma ReplacementExactly(a: seq<Byte>, run: seq<Byte>, b: seq<Byte>)
    requires run != [] && forall i | 0 <= i < |run| :: !Allowed(run[i])
    requires (a != [] ==> Allowed(a[|a| - 1])) && (b != [] ==> Allowed(b[0]))
    ensures Collapsed(a + run + b) == Collapsed(a) + [DASH] + Collapsed(b)
    ensures (forall i | 0 <= i < |b| :: Allowed(b[i])) ==> Collapsed(b) == b
  {
    CollapsedAppend(a, run);
    CollapsedAppend(a + run, b);
    RunCollapses(run);
    if forall i | 0 <= i < |b| :: Allowed(b[i]) {
      CollapsedIdentity(b);
    }
  }

  /** A name of letters, digits and dashes only changes case, letter by letter. */
  lemma CaseFolds(name: seq<Byte>, limit: nat)
    requires name != [] && |name| <= limit && name[|name| - 1] != DASH
    requires forall i | 0 <= i < |name| :: Allowed(name[i])
    ensures |Fixed(name, limit)| == |name|
    ensures forall i | 0 <= i < |name| ::
              Fixed(name, limit)[i] as int == name[i] as int + if 65 <= name[i] <= 90 then 32 else 0
  {
    CollapsedIdentity(name);
    assert Base(name, limit) == name;
  }

  /** What lies behind the limit, and then dashes at the end, make no difference. */
  lemma CutAndTrimmed(name: seq<Byte>, limit: nat)
    ensures |name| > limit ==> Fixed(name, limit) == Fixed(name[..limit], limit)
    ensures |name| < limit ==> Fixed(name + [DASH], limit) == Fixed(name, limit)
  {
    if |name| < limit {
      assert (name + [DASH])[..|name|] == name;
    }
  }

  /** "invalid-name-was-given" */
  const SUBSTITUTE: seq<Byte> :=
    [105, 110, 118, 97, 108, 105, 100, 45, 110, 97, 109, 101, 45, 119, 97, 115, 45, 103, 105, 118, 101, 110]

  /** Nothing left of a name gives the substitute. */
  lemma EmptyNameIsSubstituted(limit: nat)
    ensures Fixed([], limit) == SUBSTITUTE
  {
    var invalid: seq<Byte> := [105, 110, 118, 97, 108, 105, 100];
    var name: seq<Byte> := [110, 97, 109, 101];
    var was: seq<Byte> := [119, 97, 115];
    var given: seq<Byte> := [103, 105, 118, 101, 110];
    var end: seq<Byte> := was + [32] + given;
    var middle: seq<Byte> := name + [32] + end;
    BlankBecomesDash(was, given);
    BlankBecomesDash(name, end);
    BlankBecomesDash(invalid, middle);
    CollapsedIdentity(given);
    assert INVALID_NAME == invalid + [32] + middle;
    assert SUBSTITUTE == invalid + [DASH] + (name + [DASH] + (was + [DASH] + given));
  }

  lemma BlankBecomesDash(word: seq<Byte>, rest: seq<Byte>)
    requires word != [] && rest != [] && Allowed(rest[0])
    requires forall i | 0 <= i < |word| :: Allowed(word[i])
    ensures Collapsed(word + [32] + rest) == word + [DASH] + Collapsed(rest)
  {
    ReplacementExactly(word, [32], rest);
    CollapsedIdentity(word);
  }

  /** A label in the sense of section 2.1 of RFC 1123, as Kubernetes requires it: at most 63 bytes, lower-case
      letters, digits and dashes, with a letter or digit at both ends. */
  ghost predicate IsLabel(s: seq<Byte>) {
    && 1 <= |s| <= 63
    && (forall i | 0 <= i < |s| :: LabelByte(s[i]))
    && s[0] != DASH && s[|s| - 1] != DASH
  }

  /** For the limits in use, the result is a label exactly when the trimmed name begins and ends with a letter or
      a digit. */
  lemma FixedIsLabelExactly(name: seq<Byte>, limit: nat)
    requires limit <= 63
    ensures IsLabel(Fixed(name, limit)) <==>
            Alphanumeric(Base(name, limit)[0]) && Alphanumeric(Base(name, limit)[|Base(name, limit)| - 1])
  {
    CollapsedShape(Base(name, limit));
    FixedShape(name, limit);
  }

  lemma {:induction false} CollapsedIdentity(s: seq<Byte>)
    requires forall i | 0 <= i < |s| :: Allowed(s[i])
    ensures Collapsed(s) == s
  {
    if s != [] {
      CollapsedIdentity(s[..|s| - 1]);
    }
  }

  /** A name of allowed bytes keeps only allowed bytes, so normalising it cannot end in a dash. */
  lemma AllowedNameEndsClean(r: seq<Byte>, limit: nat)
    requires forall i | 0 <= i < |r| :: Allowed(r[i])
    ensures Fixed(r, limit) != [] && Fixed(r, limit)[|Fixed(r, limit)| - 1] != DASH
  {
    var b := Base(r, limit);
    assert Allowed(b[|b| - 1]) by {
      if b != INVALID_NAME {
        assert b <= r && b[|b| - 1] == r[|b| - 1];
      }
    }
    FixedShape(r, limit);
  }

  lemma LabelBytesAreKept(r: seq<Byte>, limit: nat)
    requires r != [] && |r| <= limit && r[|r| - 1] != DASH
    requires forall i | 0 <= i < |r| :: LabelByte(r[i])
    ensures Fixed(r, limit) == r
  {
    CollapsedIdentity(r);
    assert Base(r, limit) == r;
  }

  /** Normalising twice is normalising once, exactly when the first result does not end in a dash; every limit
      that the substitute name fits in. */
  lemma FixedPointExactly(name: seq<Byte>, limit: nat)
    requires limit >= 22
    ensures var r := Fixed(name, limit);
            r != [] && (Fixed(r, limit) == r <==> r[|r| - 1] != DASH)
  {
    var r := Fixed(name, limit);
    FixedShape(name, limit);
    if r[|r| - 1] != DASH {
      LabelBytesAreKept(r, limit);
    } else {
      AllowedNameEndsClean(r, limit);
    }
  }

  /** The limit of a name that ends in a letter or digit matters only if it cuts: only then can the result end in
      a dash. The callers append digits to their names. */
  lemma OnlyCutNamesEndInDash(name: seq<Byte>, limit: nat)
    requires name != [] && Alphanumeric(name[|name| - 1])
    ensures Fixed(name, limit) != []
    ensures Fixed(name, limit)[|Fixed(name, limit)| - 1] == DASH ==> |name| > limit
  {
    FixedShape(name, limit);
    if |name| <= limit {
      assert Trimmed(name) == name;
    }
  }

  /** "ks-scheduled-scan-" */
  const SCHEDULED_SCAN: seq<Byte> := [107, 115, 45, 115, 99, 104, 101, 100, 117, 108, 101, 100, 45, 115, 99, 97, 110, 45]

  /** The name of a scheduled scan's cron job: the target's name, a dash, and the digits of a random number. */
  function ScheduledScanName(target: seq<Byte>, random: seq<Byte>): seq<Byte> {
    SCHEDULED_SCAN + target + [DASH] + random
  }

  /** A scheduled scan's name ends in a dash when byte 34 of the target's name, the last one within the limit, is for
      instance a dot: the cron job cannot be created. */
  lemma TrailingDashExample(target: seq<Byte>, random: seq<Byte>)
    requires |target| >= 34 && !Allowed(target[33])
    ensures var r := Fixed(ScheduledScanName(target, random), 52);
            r != [] && r[|r| - 1] == DASH && !IsLabel(r)
  {
    var name := ScheduledScanName(target, random);
    assert name[..52][51] == target[33];
    assert Trimmed(name[..52]) == name[..52];
    FixedShape(name, 52);
  }
}
