/** Detection of the slot devices from the boot parameters. */
module BootParams {
  import opened Prelude

  type Params = map<string, string>

  const ROOT := "root"
  const PART_A := "aosupdate.boot.parta"
  const PART_B := "aosupdate.boot.partb"
  const ENV_PART := "aosupdate.boot.envPart"

  // ---------------------------------------------------------------- parameters

  /** The part of a parameter before its first equals sign. */
  function NameOf(param: string): string {
    if param == [] || param[0] == '=' then [] else [param[0]] + NameOf(param[1..])
  }

  /** The part after it; empty if there is none. */
  function ValueOf(param: string): string {
    if param == [] then [] else if param[0] == '=' then param[1..] else ValueOf(param[1..])
  }

  lemma {:induction false} SplitOfJoined(name: string, value: string)
    requires '=' !in name
    ensures NameOf(name + "=" + value) == name && ValueOf(name + "=" + value) == value
    ensures NameOf(name) == name && ValueOf(name) == ""
  {
    if name == [] {
      assert name + "=" + value == "=" + value;
    } else {
      SplitOfJoined(name[1..], value);
      assert (name + "=" + value)[1..] == name[1..] + "=" + value;
    }
  }

  /** The value a parameter has: that of its last occurrence. */
  function Lookup(fields: seq<string>, name: string): Option<string> {
    if fields == [] then None
    else
      var last := fields[|fields| - 1];
      if NameOf(last) == name then Some(ValueOf(last)) else Lookup(fields[..|fields| - 1], name)
  }

  /** The field at k is the given one and the last with the name. */
  ghost predicate IsLast(fields: seq<string>, k: int, name: string, field: string) {
    0 <= k < |fields| && fields[k] == field && '=' !in name && forall j :: k < j < |fields| ==>
        NameOf(fields[j]) != name
  }

  /** The parameters of a command line that was split into fields at white space. */
  method New(fields: seq<string>) returns (params: Params)
    ensures forall name :: Lookup(fields, name) == if name in params then Some(params[name]) else None
    ensures forall k, name, value :: IsLast(fields, k, name, name + "=" + value) ==>
            name in params && params[name] == value
    ensures forall k, name :: IsLast(fields, k, name, name) ==> name in params && params[name] == ""
  {
    params := map[];
    for k := 0 to |fields|
      invariant forall name :: Lookup(fields[..k], name) == if name in params then Some(params[name]) else None
    {
      assert fields[..k + 1][..k] == fields[..k];
      params := params[NameOf(fields[k]) := ValueOf(fields[k])];
    }
    assert fields[..|fields|] == fields;
    forall k, name, value | IsLast(fields, k, name, name + "=" + value) ensures Lookup(fields, name) == Some(value) {
      SplitOfJoined(name, value);
      LastIsFound(fields, k, name);
    }
    forall k, name | IsLast(fields, k, name, name) ensures Lookup(fields, name) == Some("") {
      SplitOfJoined(name, "");
      LastIsFound(fields, k, name);
    }
  }

  lemma {:induction false} LastIsFound(fields: seq<string>, k: nat, name: string)
    requires k < |fields| && NameOf(fields[k]) == name && forall j :: k < j < |fields| ==> NameOf(fields[j]) != name
    ensures Lookup(fields, name) == Some(ValueOf(fields[k]))
  {
    if k < |fields| - 1 {
      LastIsFound(fields[..|fields| - 1], k, name);
    }
  }

  // ---------------------------------------------------------------- the trailing number of the root device

  predicate Digit(c: char) {
    '0' <= c <= '9'
  }

  /** The match of the expression [[:digit:]]+$ is the whole trailing run of digits; this is what precedes it. */
  function Base(s: string): string {
    if s != [] && Digit(s[|s| - 1]) then Base(s[..|s| - 1]) else s
  }

  predicate EndsInDigit(s: string) {
    s != [] && Digit(s[|s| - 1])
  }

  predicate AllDigits(s: string) {
    forall i :: 0 <= i < |s| ==> Digit(s[i])
  }

  lemma {:induction false} BaseOfConcat(base: string, suffix: string)
    requires !EndsInDigit(base)
    ensures Base(base + suffix) == base + Base(suffix)
    ensures Base(suffix) == [] <==> AllDigits(suffix)
    ensures !EndsInDigit(Base(suffix))
  {
    if suffix == [] {
      assert base + suffix == base;
    } else if EndsInDigit(suffix) {
      var front := suffix[..|suffix| - 1];
      BaseOfConcat(base, front);
      assert (base + suffix)[..|base + suffix| - 1] == base + front;
      assert AllDigits(suffix) <==> AllDigits(front);
    }
  }

  // ---------------------------------------------------------------- slots

  /** ASCII letters are all that matters: no other character's lower case occurs in a mode's name. */
  function Lower(s: string): string {
    seq(|s|, i requires 0 <= i < |s| => if 'A' <= s[i] <= 'Z' then ((s[i] as int) + 32) as char else s[i])
  }

  /** What the regular-expression library puts in place of a match, from a template and the match. */
  type Substitute = (string, string) -> string

  /** A suffix is such a template; only a dollar sign in it would refer to the match. */
  predicate Plain(suffix: string) {
    '$' !in suffix
  }

  ghost predicate KeepsPlain(substitute: Substitute) {
    forall suffix, matched :: Plain(suffix) ==> substitute(suffix, matched) == suffix
  }

  function WithBase(base: string, digits: string, suffixes: seq<string>, substitute: Substitute): seq<string> {
    seq(|suffixes|, i requires 0 <= i < |suffixes| => base + substitute(suffixes[i], digits))
  }

  /** The root device without its number, and the number. */
  function RootBase(params: Params): Result<(string, string)> {
    if ROOT !in params then Err("no root parameter found")
    else if !EndsInDigit(params[ROOT]) then Err("can't define root device")
    else
      BaseMeaning(params[ROOT]);
      Ok((Base(params[ROOT]), params[ROOT][|Base(params[ROOT])|..]))
  }

  function AutoParts(params: Params, suffixes: seq<string>, substitute: Substitute): Result<seq<string>> {
    match RootBase(params)
    case Err(e) => Err(e)
    case Ok((base, digits)) => Ok(WithBase(base, digits, suffixes, substitute))
  }

  method GetBootParts(params: Params, mode: string, partSuffixes: seq<string>, substitute: Substitute)
    returns (r: Result<seq<string>>)
    ensures Lower(mode) == "auto" ==> r == AutoParts(params, partSuffixes, substitute)
    ensures Lower(mode) == "bootargs" ==>
              (r.Ok? <==> PART_A in params && PART_B in params && params[PART_A] != "" && params[PART_B] != "")
              && (r.Ok? ==> r.value == [params[PART_A], params[PART_B]])
    ensures Lower(mode) == "manual" ==> r == Ok(partSuffixes)
    ensures Lower(mode) !in {"auto", "bootargs", "manual"} ==> r.Err?
  {
    var m := Lower(mode);
    if m == "auto" {
      var root := RootBase(params);
      if root.Err? { return Err(root.error); }
      var (base, digits) := root.value;
      var result := new string[|partSuffixes|];
      for i := 0 to |partSuffixes|
        invariant result[..i] == WithBase(base, digits, partSuffixes, substitute)[..i]
      {
        result[i] := base + substitute(partSuffixes[i], digits);
      }
      assert result[..] == WithBase(base, digits, partSuffixes, substitute);
      return Ok(result[..]);
    } else if m == "bootargs" {
      if PART_A !in params { return Err("no parta parameter found"); }
      if PART_B !in params { return Err("no partb parameter found"); }
      if params[PART_A] == "" { return Err("parta parameter empty"); }
      if params[PART_B] == "" { return Err("partb parameter empty"); }
      return Ok([params[PART_A], params[PART_B]]);
    } else if m == "manual" {
      return Ok(partSuffixes);
    }
    return Err("unsupported mode");
  }

  function GetEnvPart(params: Params, mode: string, partSuffix: string, substitute: Substitute): Result<string> {
    if Lower(mode) == "auto" then
      match RootBase(params)
      case Err(e) => Err(e)
      case Ok((base, digits)) => Ok(base + substitute(partSuffix, digits))
    else if Lower(mode) == "bootargs" then
      if ENV_PART !in params then Err("no envPart parameter found")
      else if params[ENV_PART] == "" then Err("envPart parameter empty")
      else Ok(params[ENV_PART])
    else if Lower(mode) == "manual" then Ok(partSuffix)
    else Err("unsupported mode")
  }

  // ---------------------------------------------------------------- whichever slot is running

  lemma {:induction false} BaseMeaning(s: string)
    ensures !EndsInDigit(Base(s)) && |Base(s)| <= |s| && (EndsInDigit(s) ==> |Base(s)| < |s|)
  {
    if EndsInDigit(s) {
      BaseMeaning(s[..|s| - 1]);
    }
  }

  /** From a root device that ends in a number, the slots are its name with each suffix in place of the whole number. */
  lemma AutoDetects(params: Params, suffixes: seq<string>, substitute: Substitute, base: string, digits: string)
    requires ROOT in params && params[ROOT] == base + digits && !EndsInDigit(base) && digits != "" && AllDigits(digits)
    requires KeepsPlain(substitute) && forall s :: s in suffixes ==> Plain(s)
    ensures AutoParts(params, suffixes, substitute).Ok?
    ensures var parts := AutoParts(params, suffixes, substitute).value;
      |parts| == |suffixes| && forall i :: 0 <= i < |suffixes| ==> parts[i] == base + suffixes[i]
  {
    BaseOfConcat(base, digits);
    assert params[ROOT][|params[ROOT]| - 1] == digits[|digits| - 1];
    SameParts(base, params[ROOT][|base|..], suffixes, substitute);
  }

  /** Detection fails exactly without a root device that ends in a number. */
  lemma AutoFails(params: Params, suffixes: seq<string>, substitute: Substitute)
    ensures AutoParts(params, suffixes, substitute).Err? <==> ROOT !in params || !EndsInDigit(params[ROOT])
  {
  }

  /** The environment partition in every mode. */
  lemma EnvPartOf(params: Params, mode: string, suffix: string, substitute: Substitute, base: string, digits: string)
    requires ROOT in params && params[ROOT] == base + digits && !EndsInDigit(base) && digits != "" && AllDigits(digits)
    requires KeepsPlain(substitute) && Plain(suffix)
    ensures var part := GetEnvPart(params, mode, suffix, substitute);
      && (Lower(mode) == "auto" ==> part == Ok(base + suffix))
      && (Lower(mode) == "manual" ==> part == Ok(suffix))
      && (Lower(mode) == "bootargs" ==>
            if ENV_PART in params && params[ENV_PART] != "" then part == Ok(params[ENV_PART]) else part.Err?)
      && (Lower(mode) !in {"auto", "bootargs", "manual"} ==> part.Err?)
  {
    BaseOfConcat(base, digits);
    assert params[ROOT][|params[ROOT]| - 1] == digits[|digits| - 1];
    assert Base(params[ROOT]) == base by { assert base + [] == base; }
  }

  /** Capital letters become small ones, everything else stays. */
  lemma LowerAt(s: string, i: nat)
    requires i < |s|
    ensures |Lower(s)| == |s|
    ensures if 'A' <= s[i] <= 'Z' then Lower(s)[i] as int - 'a' as int == s[i] as int - 'A' as int
            else Lower(s)[i] == s[i]
  {
  }

  /** With suffixes that are no templates: booting from a slot detects the same slots again exactly when the slot's
      suffix is all digits and not empty; other partitions derived from the root device are then the same as well. */
  lemma SlotsIndependentOfBoot(params: Params, suffixes: seq<string>, i: nat, mode: string, envSuffix: string,
                               substitute: Substitute)
    requires AutoParts(params, suffixes, substitute).Ok? && i < |suffixes| && Lower(mode) == "auto"
    requires KeepsPlain(substitute) && Plain(envSuffix) && forall s :: s in suffixes ==> Plain(s)
    ensures var booted := params[ROOT := AutoParts(params, suffixes, substitute).value[i]];
      var number := suffixes[i] != "" && AllDigits(suffixes[i]);
      && (number <==> AutoParts(booted, suffixes, substitute) == AutoParts(params, suffixes, substitute))
      && (number <==>
            GetEnvPart(booted, mode, envSuffix, substitute) == GetEnvPart(params, mode, envSuffix, substitute))
  {
    var (base, digits) := RootBase(params).value;
    var suffix := suffixes[i];
    BaseMeaning(params[ROOT]);
    BaseOfConcat(base, suffix);
    SameParts(base, digits, suffixes, substitute);
    assert WithBase(base, digits, suffixes, substitute)[i] == base + suffix;
    if suffix == "" {
      assert base + suffix == base;
    } else {
      assert EndsInDigit(base + suffix) <==> EndsInDigit(suffix);
    }
    var again := Base(base + suffix);
    BaseMeaning(base + suffix);
    var digits' := (base + suffix)[|again|..];
    SameParts(again, digits', suffixes, substitute);
    assert WithBase(again, digits', suffixes, substitute)[i] == again + suffix;
    if AllDigits(suffix) {
      assert again == base;
    } else {
      assert |again + envSuffix| > |base + envSuffix|;
      assert |again| > |base|;
    }
  }

  lemma SameParts(base: string, digits: string, suffixes: seq<string>, substitute: Substitute)
    requires KeepsPlain(substitute) && forall s :: s in suffixes ==> Plain(s)
    ensures WithBase(base, digits, suffixes, substitute) ==
            seq(|suffixes|, i requires 0 <= i < |suffixes| => base + suffixes[i])
  {
  }

  /** With an empty suffix the slot's name has no number: booting from it, no slot is detected at all. */
  lemma NumberlessSlotIsLost(substitute: Substitute)
    requires KeepsPlain(substitute)
    ensures var params := map[ROOT := "/dev/sda1"];
      && AutoParts(params, ["", "2"], substitute) == Ok(["/dev/sda", "/dev/sda2"])
      && AutoParts(params[ROOT := "/dev/sda"], ["", "2"], substitute).Err?
  {
    var root := "/dev/sda1";
    assert root[..8] == "/dev/sda" && Base("/dev/sda") == "/dev/sda" && Base(root) == "/dev/sda";
    assert Plain("") && Plain("2");
    assert WithBase("/dev/sda", root[8..], ["", "2"], substitute) == ["/dev/sda", "/dev/sda2"] by {
      assert "/dev/sda" + "" == "/dev/sda" && "/dev/sda" + "2" == "/dev/sda2";
    }
  }
}
