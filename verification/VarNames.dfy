/** `upstream.VarName`: the tofu variable that carries one output of one component. */
module VarNames {

  function SanitizeChar(c: char): char {
    if 'A' <= c <= 'Z' then (c as int + 32) as char
    else if 'a' <= c <= 'z' || '0' <= c <= '9' || c == '_' then c
    else '_'
  }

  function SanitizeChars(s: string): (r: string)
    ensures |r| == |s| && forall i :: 0 <= i < |s| ==> r[i] == SanitizeChar(s[i])
  {
    seq(|s|, i requires 0 <= i < |s| => SanitizeChar(s[i]))
  }

  function Sanitized(s: string): string {
    var r := SanitizeChars(s);
    if r == "" || '0' <= r[0] <= '9' then "_" + r else r
  }

  method SanitizeIdent(s: string) returns (out: string)
    ensures out == Sanitized(s)
  {
    out := "";
    for i := 0 to |s|
      invariant out == SanitizeChars(s)[..i]
    {
      var c := s[i];
      if 'A' <= c <= 'Z' {
        out := out + [(c as int + 32) as char];
      } else if 'a' <= c <= 'z' || '0' <= c <= '9' || c == '_' {
        out := out + [c];
      } else {
        out := out + ['_'];
      }
    }
    if |out| == 0 || '0' <= out[0] <= '9' {
      out := ['_'] + out;
    }
  }

  function VarName(component: string, output: string): string {
    "upstream_" + Sanitized(component) + "_" + output
  }

  const UPPER := "ABCDEFGHIJKLMNOPQRSTUVWXYZ"
  const LOWER := "abcdefghijklmnopqrstuvwxyz"

  /** The underscore that stands before an empty name or a leading digit. */
  function Lead(s: string): string {
    if |s| == 0 || s[0] in "0123456789" then "_" else ""
  }

  /** Character by character: upper case becomes lower case, lower case, digits and underscores
      stay, everything else becomes an underscore. */
  ghost predicate Sanitizes(c: char, d: char) {
    if c in UPPER then exists k :: 0 <= k < 26 && c == UPPER[k] && d == LOWER[k]
    else d == if c in LOWER || c in "0123456789" then c else '_'
  }

  lemma LettersAt(k: nat)
    requires k < 26
    ensures UPPER[k] as int == 65 + k && LOWER[k] as int == 97 + k
  {
  }

  lemma DigitsAt(k: nat)
    requires k < 10
    ensures "0123456789"[k] as int == 48 + k
  {
  }

  lemma LetterIs(c: char)
    ensures c in UPPER <==> 'A' <= c <= 'Z'
    ensures c in LOWER <==> 'a' <= c <= 'z'
  {
    forall k: nat | k < 26
      ensures UPPER[k] as int == 65 + k && LOWER[k] as int == 97 + k
    {
      LettersAt(k);
    }
    if 'A' <= c <= 'Z' {
      assert UPPER[c as int - 65] == c;
    }
    if 'a' <= c <= 'z' {
      assert LOWER[c as int - 97] == c;
    }
  }

  lemma DigitIn(c: char)
    ensures c in "0123456789" <==> '0' <= c <= '9'
  {
    if '0' <= c <= '9' {
      DigitsAt(c as int - 48);
    }
  }

  lemma CharSanitizes(c: char)
    ensures Sanitizes(c, SanitizeChar(c))
  {
    LetterIs(c);
    DigitIn(c);
    if 'A' <= c <= 'Z' {
      LettersAt(c as int - 65);
    }
  }

  /** Only a digit becomes a digit. */
  lemma DigitStays(c: char)
    ensures '0' <= SanitizeChar(c) <= '9' <==> c in "0123456789"
  {
    DigitIn(c);
  }

  lemma SanitizedIs(s: string)
    ensures |Sanitized(s)| == |Lead(s)| + |s| && Sanitized(s)[..|Lead(s)|] == Lead(s)
    ensures forall i :: 0 <= i < |s| ==> Sanitizes(s[i], Sanitized(s)[|Lead(s)| + i])
  {
    LeadIs(s);
    forall i | 0 <= i < |s|
      ensures Sanitizes(s[i], Sanitized(s)[|Lead(s)| + i])
    {
      CharSanitizes(s[i]);
      AfterLead(Lead(s), SanitizeChars(s), i);
    }
  }

  lemma LeadIs(s: string)
    ensures Sanitized(s) == Lead(s) + SanitizeChars(s)
  {
    if s == "" {
      assert SanitizeChars(s) == "";
    } else {
      DigitStays(s[0]);
      assert "" + SanitizeChars(s) == SanitizeChars(s);
    }
  }

  lemma AfterLead(lead: string, rest: string, i: nat)
    requires i < |rest|
    ensures (lead + rest)[|lead| + i] == rest[i]
  {
  }

  /** A variable is the sanitized component name between a fixed prefix and the output. */
  lemma VarNameIs(component: string, output: string)
    ensures |VarName(component, output)| == 9 + |Sanitized(component)| + 1 + |output|
    ensures VarName(component, output)[..9] == "upstream_"
    ensures VarName(component, output)[9..9 + |Sanitized(component)|] == Sanitized(component)
    ensures VarName(component, output)[9 + |Sanitized(component)|..] == "_" + output
  {
    InThreeParts("upstream_", Sanitized(component), output);
  }

  lemma InThreeParts(prefix: string, middle: string, output: string)
    ensures var whole, n := prefix + middle + "_" + output, |prefix| + |middle|;
            && |whole| == n + 1 + |output| && whole[..|prefix|] == prefix
            && whole[|prefix|..n] == middle && whole[n..] == "_" + output
  {
    var whole := prefix + middle + "_" + output;
    assert whole == prefix + (middle + ("_" + output));
    assert whole == (prefix + middle) + ("_" + output);
  }

  predicate Alnum(c: char) {
    'a' <= c <= 'z' || '0' <= c <= '9'
  }

  /** The names the IR schema admits: lowercase letters, digits and inner hyphens. */
  ghost predicate LegalName(s: string) {
    && s != "" && Alnum(s[0]) && Alnum(s[|s| - 1])
    && forall i :: 0 <= i < |s| ==> Alnum(s[i]) || s[i] == '-'
  }

  /** A legal name can be read back from its sanitized form. */
  lemma SanitizedInjective(a: string, b: string)
    requires LegalName(a) && LegalName(b) && Sanitized(a) == Sanitized(b)
    ensures a == b
  {
    var x, y := SanitizeChars(a), SanitizeChars(b);
    assert x[0] == a[0] && y[0] == b[0];
    assert x == y by {
      if '0' <= x[0] <= '9' {
        assert Sanitized(a)[0] == '_';
        assert Sanitized(a)[1..] == x && Sanitized(b)[1..] == y;
      }
    }
    forall i | 0 <= i < |a|
      ensures a[i] == b[i]
    {
      assert x[i] == y[i];
    }
  }

  lemma SanitizedShape(a: string)
    requires LegalName(a)
    ensures Sanitized(a) != "" && Alnum(Sanitized(a)[|Sanitized(a)| - 1])
    ensures forall i :: 0 <= i < |Sanitized(a)| ==> Alnum(Sanitized(a)[i]) || Sanitized(a)[i] == '_'
  {
    var x, r := SanitizeChars(a), Sanitized(a);
    forall i | 0 <= i < |x|
      ensures x[i] == if a[i] == '-' then '_' else a[i]
    {
      LegalChar(a[i]);
    }
    assert r[|r| - 1] == x[|a| - 1] == a[|a| - 1];
    if r != x {
      forall i | 0 <= i < |r|
        ensures Alnum(r[i]) || r[i] == '_'
      {
        if i > 0 {
          assert r[i] == x[i - 1];
        }
      }
    }
  }

  lemma LegalChar(c: char)
    requires Alnum(c) || c == '-'
    ensures SanitizeChar(c) == if c == '-' then '_' else c
  {
  }

  /** `longer` is `prefix`, an underscore and `shorter`, where `prefix` could end the
      sanitized form of a legal name. */
  ghost predicate Hides(longer: string, shorter: string, prefix: string) {
    && longer == prefix + "_" + shorter
    && prefix != "" && Alnum(prefix[|prefix| - 1])
    && forall i :: 0 <= i < |prefix| ==> Alnum(prefix[i]) || prefix[i] == '_'
  }

  ghost predicate SomeHides(outputs: set<string>) {
    exists longer, shorter, prefix :: longer in outputs && shorter in outputs && Hides(longer, shorter, prefix)
  }

  ghost predicate Clash(c1: string, o1: string, c2: string, o2: string) {
    LegalName(c1) && LegalName(c2) && (c1, o1) != (c2, o2) && VarName(c1, o1) == VarName(c2, o2)
  }

  lemma SplitVarName(x: string, o1: string, y: string, o2: string) returns (prefix: string)
    requires x + "_" + o1 == y + "_" + o2 && |x| > |y|
    ensures o2 == prefix + "_" + o1 && x == y + "_" + prefix
  {
    var whole := x + "_" + o1;
    prefix := x[|y| + 1..];
    assert whole[..|x|] == x;
    assert whole[..|y|] == y && whole[|y|] == '_' by {
      assert whole == y + "_" + o2;
    }
    assert x[..|y|] == y && x[|y|] == '_';
    assert o2 == whole[|y| + 1..] by {
      assert whole == y + "_" + o2;
    }
    assert whole[|y| + 1..] == prefix + "_" + o1;
  }

  lemma AfterUpstream(component: string, output: string)
    ensures VarName(component, output)[9..] == Sanitized(component) + "_" + output
  {
  }

  lemma ClashHides(c1: string, o1: string, c2: string, o2: string)
    requires Clash(c1, o1, c2, o2) && |Sanitized(c1)| > |Sanitized(c2)|
    ensures exists prefix :: Hides(o2, o1, prefix)
  {
    var x, y := Sanitized(c1), Sanitized(c2);
    SanitizedShape(c1);
    AfterUpstream(c1, o1);
    AfterUpstream(c2, o2);
    var prefix := SplitVarName(x, o1, y, o2);
    assert prefix == x[|y| + 1..];
    assert Hides(o2, o1, prefix);
  }

  lemma ClashLengths(c1: string, o1: string, c2: string, o2: string)
    requires Clash(c1, o1, c2, o2)
    ensures |Sanitized(c1)| != |Sanitized(c2)|
  {
    var x, y := Sanitized(c1), Sanitized(c2);
    if |x| == |y| {
      AfterUpstream(c1, o1);
      AfterUpstream(c2, o2);
      assert (x + "_" + o1)[..|x|] == x && (y + "_" + o2)[..|y|] == y;
      assert (x + "_" + o1)[|x| + 1..] == o1 && (y + "_" + o2)[|y| + 1..] == o2;
      SanitizedInjective(c1, c2);
    }
  }

  lemma HidesClashes(o2: string, o1: string, prefix: string)
    requires Hides(o2, o1, prefix)
    ensures exists c1, c2 :: Clash(c1, o1, c2, o2)
  {
    var tail := seq(|prefix|, i requires 0 <= i < |prefix| => if prefix[i] == '_' then '-' else prefix[i]);
    var c1 := "a-" + tail;
    assert c1[|c1| - 1] == tail[|tail| - 1];
    assert LegalName(c1);
    assert SanitizeChars(c1) == "a_" + prefix;
    assert SanitizeChars("a") == "a";
    assert VarName(c1, o1) == "upstream_" + ("a_" + prefix) + "_" + o1;
    assert VarName("a", o2) == "upstream_" + "a" + "_" + (prefix + "_" + o1);
    assert VarName(c1, o1) == VarName("a", o2);
    assert |c1| > |"a"|;
    assert Clash(c1, o1, "a", o2);
  }

  /** Two different outputs of legally named components get the same variable exactly when
      one declared output name hides another behind an underscore. */
  lemma VarNameInjectiveIff(outputs: set<string>)
    ensures (forall c1, o1, c2, o2 :: o1 in outputs && o2 in outputs ==> !Clash(c1, o1, c2, o2))
        <==> !SomeHides(outputs)
  {
    if c1, o1, c2, o2 :| o1 in outputs && o2 in outputs && Clash(c1, o1, c2, o2) {
      ClashLengths(c1, o1, c2, o2);
      if |Sanitized(c1)| > |Sanitized(c2)| {
        ClashHides(c1, o1, c2, o2);
      } else {
        assert Clash(c2, o2, c1, o1);
        ClashHides(c2, o2, c1, o1);
      }
    }
    if SomeHides(outputs) {
      var longer, shorter, prefix :| longer in outputs && shorter in outputs && Hides(longer, shorter, prefix);
      HidesClashes(longer, shorter, prefix);
      var c1, c2 :| Clash(c1, shorter, c2, longer);
    }
  }

  // ---------------------------------------------------------------- the built-in types

  const NETWORK_OUTPUTS := {"vpc_id", "subnet_ids", "route_table_ids"}
  const COMPUTE_OUTPUTS := {"instance_ids", "private_ips", "security_group_id"}
  const DATABASE_OUTPUTS := {"endpoint", "port", "db_name"}
  const STORAGE_OUTPUTS := {"bucket_name", "bucket_arn", "bucket_url"}

  function DefaultOutputs(): set<string> {
    NETWORK_OUTPUTS + COMPUTE_OUTPUTS + DATABASE_OUTPUTS + STORAGE_OUTPUTS
  }

  ghost predicate HiddenIn(s: string, shorter: string) {
    exists prefix :: s == prefix + "_" + shorter
  }

  /** Only a suffix that starts after an underscore can hide. */
  lemma Peel(word: string, rest: string, shorter: string)
    requires '_' !in word
    ensures HiddenIn(word + "_" + rest, shorter) ==> shorter == rest || HiddenIn(rest, shorter)
  {
    var s := word + "_" + rest;
    if prefix :| s == prefix + "_" + shorter {
      var k := |prefix|;
      assert s[k] == '_' && s[k + 1..] == shorter;
      assert forall i :: 0 <= i < |word| ==> s[i] == word[i];
      if k == |word| {
        assert shorter == rest;
      } else {
        var p := rest[..k - |word| - 1];
        assert rest == p + "_" + shorter by {
          assert forall i :: 0 <= i < |rest| ==> rest[i] == s[|word| + 1 + i];
        }
      }
    }
  }

  lemma Plain(word: string, shorter: string)
    requires '_' !in word
    ensures !HiddenIn(word, shorter)
  {
    forall prefix
      ensures word != prefix + "_" + shorter
    {
      assert (prefix + "_" + shorter)[|prefix|] == '_';
    }
  }

  lemma TwoWords(a: string, b: string, shorter: string)
    requires '_' !in a && '_' !in b && HiddenIn(a + "_" + b, shorter)
    ensures shorter == b
  {
    Peel(a, b, shorter);
    Plain(b, shorter);
  }

  lemma ThreeWords(a: string, b: string, c: string, shorter: string)
    requires '_' !in a && '_' !in b && '_' !in c && HiddenIn(a + "_" + (b + "_" + c), shorter)
    ensures shorter == c || shorter == b + "_" + c
  {
    Peel(a, b + "_" + c, shorter);
    if shorter != b + "_" + c {
      TwoWords(b, c, shorter);
    }
  }

  lemma NetworkHides(longer: string, shorter: string)
    requires longer in NETWORK_OUTPUTS && HiddenIn(longer, shorter)
    ensures shorter in {"id", "ids", "table_ids"}
  {
    if longer == "vpc_id" {
      assert longer == "vpc" + "_" + "id";
      TwoWords("vpc", "id", shorter);
    } else if longer == "subnet_ids" {
      assert longer == "subnet" + "_" + "ids";
      TwoWords("subnet", "ids", shorter);
    } else {
      assert longer == "route" + "_" + ("table" + "_" + "ids");
      assert "table" + "_" + "ids" == "table_ids";
      ThreeWords("route", "table", "ids", shorter);
    }
  }

  lemma ComputeHides(longer: string, shorter: string)
    requires longer in COMPUTE_OUTPUTS && HiddenIn(longer, shorter)
    ensures shorter in {"ids", "ips", "id", "group_id"}
  {
    if longer == "instance_ids" {
      assert longer == "instance" + "_" + "ids";
      TwoWords("instance", "ids", shorter);
    } else if longer == "private_ips" {
      assert longer == "private" + "_" + "ips";
      TwoWords("private", "ips", shorter);
    } else {
      assert longer == "security" + "_" + ("group" + "_" + "id");
      assert "group" + "_" + "id" == "group_id";
      ThreeWords("security", "group", "id", shorter);
    }
  }

  lemma DatabaseHides(longer: string, shorter: string)
    requires longer in DATABASE_OUTPUTS && HiddenIn(longer, shorter)
    ensures shorter == "name"
  {
    if longer == "db_name" {
      assert longer == "db" + "_" + "name";
      TwoWords("db", "name", shorter);
    } else {
      Plain(longer, shorter);
    }
  }

  lemma StorageHides(longer: string, shorter: string)
    requires longer in STORAGE_OUTPUTS && HiddenIn(longer, shorter)
    ensures shorter in {"name", "arn", "url"}
  {
    if longer == "bucket_name" {
      assert longer == "bucket" + "_" + "name";
      TwoWords("bucket", "name", shorter);
    } else if longer == "bucket_arn" {
      assert longer == "bucket" + "_" + "arn";
      TwoWords("bucket", "arn", shorter);
    } else {
      assert longer == "bucket" + "_" + "url";
      TwoWords("bucket", "url", shorter);
    }
  }

  lemma DefaultOutputsHideNothing()
    ensures !SomeHides(DefaultOutputs())
  {
    if longer, shorter, prefix :|
      longer in DefaultOutputs() && shorter in DefaultOutputs() && Hides(longer, shorter, prefix)
    {
      assert HiddenIn(longer, shorter);
      if longer in NETWORK_OUTPUTS {
        NetworkHides(longer, shorter);
      } else if longer in COMPUTE_OUTPUTS {
        ComputeHides(longer, shorter);
      } else if longer in DATABASE_OUTPUTS {
        DatabaseHides(longer, shorter);
      } else {
        StorageHides(longer, shorter);
      }
      assert shorter in {"id", "ids", "table_ids", "ips", "group_id", "name", "arn", "url"};
      NoTailDeclared(shorter);
    }
  }

  lemma NoTailDeclared(s: string)
    requires s in {"id", "ids", "table_ids", "ips", "group_id", "name", "arn", "url"}
    ensures s !in DefaultOutputs()
  {
    assert |s| == 2 || |s| == 3 || |s| == 4 || |s| == 8 || |s| == 9;
    if |s| == 8 {
      assert s[0] == 'g';
    } else if |s| == 9 {
      assert s[0] == 't';
    } else if |s| == 4 {
      assert s[0] == 'n';
    }
  }

  /** With the outputs the default registry declares, a variable name determines the
      component and the output it stands for. */
  lemma DefaultVarNamesInjective(c1: string, o1: string, c2: string, o2: string)
    requires LegalName(c1) && LegalName(c2) && o1 in DefaultOutputs() && o2 in DefaultOutputs()
    requires VarName(c1, o1) == VarName(c2, o2)
    ensures c1 == c2 && o1 == o2
  {
    DefaultOutputsHideNothing();
    VarNameInjectiveIff(DefaultOutputs());
    assert !Clash(c1, o1, c2, o2);
  }
}
