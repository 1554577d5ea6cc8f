/** Actor types and the strings that stand for them. */
module ActorTypes {
  import opened GoStrings

  datatype ActorType = Unspecified | Player | Operator | Service

  /** The generated `String()` of the enum. */
  function Name(t: ActorType): string {
    match t
    case Unspecified => "ACTOR_TYPE_UNSPECIFIED"
    case Player => "ACTOR_TYPE_PLAYER"
    case Operator => "ACTOR_TYPE_OPERATOR"
    case Service => "ACTOR_TYPE_SERVICE"
  }

  /** `unicode.ToUpper` as far as its result is an ASCII character: the dotless i and the long s are the two
      letters outside ASCII with an ASCII upper case. */
  function Upper(c: char): char {
    if 'a' <= c <= 'z' then (c as int - 32) as char
    else if c == '\U{131}' then 'I'
    else if c == '\U{17F}' then 'S'
    else c
  }

  function ToUpper(s: string): (r: string)
    ensures |r| == |s|
  {
    seq(|s|, i requires 0 <= i < |s| => Upper(s[i]))
  }

  /** `actorTypeFromString`. */
  function FromString(v: string): ActorType {
    match ToUpper(Trim(v))
    case "ACTOR_TYPE_PLAYER" => Player
    case "PLAYER" => Player
    case "ACTOR_TYPE_OPERATOR" => Operator
    case "OPERATOR" => Operator
    case "ACTOR_TYPE_SERVICE" => Service
    case "SERVICE" => Service
    case _ => Unspecified
  }

  /** The text is this name, in capitals or not. */
  predicate Spells(v: string, name: string) {
    |v| == |name| && forall i :: 0 <= i < |v| ==> Upper(v[i]) == name[i]
  }

  /** A type is read exactly from its name or from the part after its prefix, in capitals or not and with any space
      around; everything else is unspecified. */
  lemma FromStringIff(v: string)
    ensures FromString(v) == Player <==> Spells(Trim(v), "PLAYER") || Spells(Trim(v), "ACTOR_TYPE_PLAYER")
    ensures FromString(v) == Operator <==> Spells(Trim(v), "OPERATOR") || Spells(Trim(v), "ACTOR_TYPE_OPERATOR")
    ensures FromString(v) == Service <==> Spells(Trim(v), "SERVICE") || Spells(Trim(v), "ACTOR_TYPE_SERVICE")
  {
    hide Trim, Spells, ToUpper;
    var t := Trim(v);
    SpellsIff(t, "PLAYER");
    SpellsIff(t, "ACTOR_TYPE_PLAYER");
    SpellsIff(t, "OPERATOR");
    SpellsIff(t, "ACTOR_TYPE_OPERATOR");
    SpellsIff(t, "SERVICE");
    SpellsIff(t, "ACTOR_TYPE_SERVICE");
    assert "PLAYER"[0] != "OPERATOR"[0] && "PLAYER"[0] != "SERVICE"[0] && "OPERATOR"[0] != "SERVICE"[0];
    assert "ACTOR_TYPE_PLAYER"[11] != "ACTOR_TYPE_OPERATOR"[11] && "ACTOR_TYPE_PLAYER"[11] != "ACTOR_TYPE_SERVICE"[11];
    assert "ACTOR_TYPE_OPERATOR"[11] != "ACTOR_TYPE_SERVICE"[11];
  }

  lemma SpellsIff(v: string, name: string)
    ensures ToUpper(v) == name <==> Spells(v, name)
  {
    if Spells(v, name) {
      assert forall i :: 0 <= i < |v| ==> ToUpper(v)[i] == name[i];
    }
  }

  /** The characters that read as a given capital: itself, its small letter, and for two of them one letter more. */
  lemma UpperIff(c: char, capital: char)
    requires 'A' <= capital <= 'Z'
    ensures Upper(c) == capital <==>
              || c == capital || c as int == capital as int + 32
              || (capital == 'I' && c as int == 0x131) || (capital == 'S' && c as int == 0x17F)
  {
  }

  lemma UpperFixed(s: string)
    requires Trimmed(s) && forall i :: 0 <= i < |s| ==> Upper(s[i]) == s[i]
    ensures ToUpper(Trim(s)) == s
  {
    TrimTrimmed(s);
    assert ToUpper(s) == s;
  }

  /** Reading back the stored name gives the stored type. */
  lemma NameRoundTrip(t: ActorType)
    ensures FromString(Name(t)) == t
  {
    hide ToUpper, Trim;
    match t
    case Unspecified => UpperFixed("ACTOR_TYPE_UNSPECIFIED");
    case Player => UpperFixed("ACTOR_TYPE_PLAYER");
    case Operator => UpperFixed("ACTOR_TYPE_OPERATOR");
    case Service => UpperFixed("ACTOR_TYPE_SERVICE");
  }
}
