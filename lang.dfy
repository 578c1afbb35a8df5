/**
 * The `TessyLang` enumeration of the engine's language codes, its membership test
 * `contains` and its validating `join`.
 */
module Lang {
  import opened Wrappers
  import opened Text

  /**
   * The distinct values of `TessyLang`. Several member names share one value
   * (HAITIAN and HAITIAN_CREOLE are both "hat", KIRGHIZ and KYRGYZ "kir",
   * SPANISH and CASTILIAN "spa", ...), so 113 names give these 102 codes,
   * listed in declaration order, in groups by initial letter.
   */
  const CodesAB: seq<string> := ["afr", "amh", "ara", "asm", "aze", "aze_cyrl", "bel", "ben", "bod", "bos", "bul"]
  const CodesCD: seq<string> := ["cat", "ceb", "ces", "chi_sim", "chi_tra", "chr", "cym", "dan", "deu", "dzo"]
  const CodesEF: seq<string> := ["ell", "eng", "enm", "epo", "est", "eus", "fas", "fin", "fra", "frk", "frm"]
  const CodesGI: seq<string> := ["gle", "glg", "grc", "guj", "hat", "heb", "hin", "hrv", "hun", "iku", "ind", "isl", "ita", "ita_old"]
  const CodesJL: seq<string> := ["jav", "jpn", "kan", "kat", "kat_old", "kaz", "khm", "kir", "kor", "kur", "lao", "lat", "lav", "lit"]
  const CodesMP: seq<string> := ["mal", "mar", "mkd", "mlt", "msa", "mya", "nep", "nld", "nor", "ori", "pan", "pol", "por", "pus"]
  const CodesRS: seq<string> := ["ron", "rus", "san", "sin", "slk", "slv", "spa", "spa_old", "sqi", "srp", "srp_latn", "swa", "swe", "syr"]
  const CodesTY: seq<string> := ["tam", "tel", "tgk", "tgl", "tha", "tir", "tur", "uig", "ukr", "urd", "uzb", "uzb_cyrl", "vie", "yid"]

  /** `TessyLang.contains(value)`: some member has this value. */
  predicate Contains(value: string) {
    || value in CodesAB || value in CodesCD || value in CodesEF || value in CodesGI
    || value in CodesJL || value in CodesMP || value in CodesRS || value in CodesTY
  }

  /** The value of some `TessyLang` member. */
  type Code = c: string | Contains(c) witness "eng"

  predicate CodeChar(ch: char) {
    'a' <= ch <= 'z' || ch == '_'
  }

  /** The form every code has: three to eight lower-case letters or `_`. */
  predicate WellShaped(c: string) {
    3 <= |c| <= 8 && forall i :: 0 <= i < |c| ==> CodeChar(c[i])
  }

  /** Every code is well shaped, hence never empty, free of `+` and of whitespace. */
  lemma CodeShape(c: string)
    requires Contains(c)
    ensures WellShaped(c)
    ensures '+' !in c && NoSpaceIn(c) && Strip(c) == c
  {
    if c in CodesAB { GroupShapeAB(c); }
    else if c in CodesCD { GroupShapeCD(c); }
    else if c in CodesEF { GroupShapeEF(c); }
    else if c in CodesGI { GroupShapeGI(c); }
    else if c in CodesJL { GroupShapeJL(c); }
    else if c in CodesMP { GroupShapeMP(c); }
    else if c in CodesRS { GroupShapeRS(c); }
    else if c in CodesTY { GroupShapeTY(c); }
  }

  lemma GroupShapeAB(c: string) requires c in CodesAB ensures WellShaped(c) {}
  lemma GroupShapeCD(c: string) requires c in CodesCD ensures WellShaped(c) {}
  lemma GroupShapeEF(c: string) requires c in CodesEF ensures WellShaped(c) {}
  lemma GroupShapeGI(c: string) requires c in CodesGI ensures WellShaped(c) {}
  lemma GroupShapeJL(c: string) requires c in CodesJL ensures WellShaped(c) {}
  lemma GroupShapeMP(c: string) requires c in CodesMP ensures WellShaped(c) {}
  lemma GroupShapeRS(c: string) requires c in CodesRS ensures WellShaped(c) {}
  lemma GroupShapeTY(c: string) requires c in CodesTY ensures WellShaped(c) {}

  /** An argument of `join`, or the `lang` argument of `image_to_file`, by its Python type. */
  datatype LangValue =
    | Member(code: Code)                            // a TessyLang member, kept as its value
    | Str(s: string)                                // a str
    | Sequence(items: seq<LangValue>, tuple: bool)  // a list, or a tuple when `tuple`
    | Other(typeName: string, truthy: bool)         // an object of another type: its str(type(x)), its truth value

  /** The two ValueErrors `join` raises. */
  datatype LangError =
    | WrongType(typeName: string)   // neither a str nor a TessyLang
    | Unsupported(lang: string)     // a str (after strip) that is no member's value

  /** The text of the ValueError. */
  function Message(e: LangError): string {
    match e
    case WrongType(t) => "join: Only string and TessyLang types are supported. Given type: " + t
    case Unsupported(l) => "join: The given language '" + l + "' doesn't exists or not supported yet."
  }

  function TypeName(v: LangValue): string {
    match v
    case Member(_) => "<enum 'TessyLang'>"
    case Str(_) => "<class 'str'>"
    case Sequence(_, tuple) => if tuple then "<class 'tuple'>" else "<class 'list'>"
    case Other(t, _) => t
  }

  /** One element of `join`'s loop: a member gives its value, a str is stripped and checked. */
  function Normalize(v: LangValue): (r: Result<string, LangError>)
    ensures r.Ok? ==> Contains(r.value)
    ensures r.Ok? <==> v.Member? || (v.Str? && Contains(Strip(v.s)))
  {
    match v
    case Member(c) => Ok(c)
    case Str(s) => if Contains(Strip(s)) then Ok(Strip(s)) else Err(Unsupported(Strip(s)))
    case _ => Err(WrongType(TypeName(v)))
  }

  /**
   * The loop of `join`: the code `check` gives each argument, in order, or the error
   * of the first argument it rejects.
   */
  function Collect<T, E>(check: T -> Result<string, E>, args: seq<T>): Result<seq<string>, E> {
    if args == [] then Ok([])
    else
      match check(args[0])
      case Err(e) => Err(e)
      case Ok(c) =>
        match Collect(check, args[1..])
        case Err(e) => Err(e)
        case Ok(cs) => Ok([c] + cs)
  }

  /** The codes of all `args` in order, or the error of the first one that is rejected. */
  function Validate(args: seq<LangValue>): Result<seq<string>, LangError> {
    Collect(Normalize, args)
  }

  /**
   * The loop succeeds exactly when every argument passes, keeps their codes one for
   * one in order, and otherwise stops at the first rejected argument.
   */
  lemma {:induction false} CollectMeaning<T, E>(check: T -> Result<string, E>, args: seq<T>)
    ensures Collect(check, args).Ok? <==> forall i :: 0 <= i < |args| ==> check(args[i]).Ok?
    ensures Collect(check, args).Ok? ==>
              |Collect(check, args).value| == |args| &&
              forall i :: 0 <= i < |args| ==> Collect(check, args).value[i] == check(args[i]).value
    ensures Collect(check, args).Err? ==>
              exists i :: 0 <= i < |args| && check(args[i]) == Err(Collect(check, args).error)
                          && forall j :: 0 <= j < i ==> check(args[j]).Ok?
  {
    if args != [] {
      CollectMeaning(check, args[1..]);
      var v := Collect(check, args);
      if check(args[0]).Err? {
        assert check(args[0]) == Err(v.error);
      } else if v.Err? {
        var i :| 0 <= i < |args[1..]| && check(args[1..][i]) == Err(v.error)
                 && forall j :: 0 <= j < i ==> check(args[1..][j]).Ok?;
        assert check(args[i + 1]) == Err(v.error);
        assert forall j :: 0 <= j < i + 1 ==> check(args[j]).Ok? by {
          forall j | 0 <= j < i + 1 ensures check(args[j]).Ok? {
            if j > 0 { assert args[j] == args[1..][j - 1]; }
          }
        }
      } else {
        forall i | 0 <= i < |args| ensures check(args[i]).Ok? {
          if i > 0 { assert args[i] == args[1..][i - 1]; }
        }
      }
    }
  }

  /**
   * `join` accepts its arguments exactly when each one is a member or a known code,
   * keeps their codes in argument order, and otherwise reports the first bad one:
   * no partial list ever comes out of a failure.
   */
  lemma ValidateMeaning(args: seq<LangValue>)
    ensures Validate(args).Ok? <==> forall i :: 0 <= i < |args| ==> Normalize(args[i]).Ok?
    ensures Validate(args).Ok? ==>
              |Validate(args).value| == |args| &&
              forall i :: 0 <= i < |args| ==> Validate(args).value[i] == Normalize(args[i]).value
    ensures Validate(args).Err? ==>
              exists i :: 0 <= i < |args| && Normalize(args[i]) == Err(Validate(args).error)
                          && forall j :: 0 <= j < i ==> Normalize(args[j]).Ok?
  {
    CollectMeaning(Normalize, args);
  }

  /** What `join` gives back when it does not raise: the empty list `[]`, or a string. */
  datatype Joined = EmptyList | Joined(text: string)

  /** The arguments `join` finally works on: a list or tuple in first place is unpacked, the rest dropped. */
  function Unpack(args: seq<LangValue>): seq<LangValue> {
    if args != [] && args[0].Sequence? then Unpack(args[0].items) else args
  }

  /** `TessyLang.join(*args)` as a function. */
  function JoinSpec(args: seq<LangValue>): Result<Joined, LangError> {
    if args == [] then Ok(EmptyList)
    else if args[0].Sequence? then JoinSpec(args[0].items)
    else
      match Validate(args)
      case Err(e) => Err(e)
      case Ok(langs) => if langs != [] then Ok(Joined(Join("+", langs))) else Ok(EmptyList)
  }

  /**
   * `join` yields `[]` exactly when nothing is left after unpacking, the error of the
   * first bad element when there is one, and otherwise a string that splits on `+`
   * back into the elements' codes, in argument order.
   */
  lemma {:induction false} JoinMeaning(args: seq<LangValue>)
    ensures Unpack(args) == [] <==> JoinSpec(args) == Ok(EmptyList)
    ensures Validate(Unpack(args)).Err? ==> JoinSpec(args) == Err(Validate(Unpack(args)).error)
    ensures Unpack(args) != [] && Validate(Unpack(args)).Ok? ==>
              JoinSpec(args).Ok? && JoinSpec(args).value.Joined? &&
              Split(JoinSpec(args).value.text, '+') == Validate(Unpack(args)).value
    ensures JoinSpec(args).Ok? && JoinSpec(args).value.Joined? ==>
              forall c :: c in Split(JoinSpec(args).value.text, '+') ==> Contains(c)
  {
    if args != [] && args[0].Sequence? {
      JoinMeaning(args[0].items);
    } else if args != [] {
      var v := Validate(args);
      ValidateMeaning(args);
      if v.Ok? {
        forall i | 0 <= i < |v.value| ensures '+' !in v.value[i] {
          CodeShape(v.value[i]);
        }
        SplitJoin(v.value, '+');
      }
    }
  }

  /** Adding one element at the end of an accepted prefix. */
  lemma {:induction false} CollectSnoc<T, E>(check: T -> Result<string, E>, p: seq<T>, x: T, cs: seq<string>, c: string)
    requires Collect(check, p) == Ok(cs) && check(x) == Ok(c)
    ensures Collect(check, p + [x]) == Ok(cs + [c])
  {
    if p != [] {
      assert (p + [x])[0] == p[0];
      assert (p + [x])[1..] == p[1..] + [x];
      CollectSnoc(check, p[1..], x, cs[1..], c);
      assert [cs[0]] + (cs[1..] + [c]) == cs + [c];
    } else {
      assert p + [x] == [x] && [x][1..] == [] && [x][0] == x;
      assert Collect(check, [x][1..]) == Ok([]);
      assert Collect(check, [x]) == Ok([c] + []);
      assert cs == [] && [c] + [] == [c] && cs + [c] == [c];
    }
  }

  /** The first rejected element decides the outcome, whatever follows it. */
  lemma {:induction false} CollectFirstError<T, E>(check: T -> Result<string, E>, p: seq<T>, x: T, q: seq<T>, e: E)
    requires Collect(check, p).Ok? && check(x) == Err(e)
    ensures Collect(check, p + [x] + q) == Err(e)
  {
    var s := p + [x] + q;
    if p != [] {
      assert s[0] == p[0];
      assert s[1..] == p[1..] + [x] + q;
      CollectFirstError(check, p[1..], x, q, e);
    } else {
      assert s[0] == x;
    }
  }

  /** The loop of `join` over its arguments: appends each code to `langs`, or raises at the first bad one. */
  method CollectCodes(args: seq<LangValue>) returns (r: Result<seq<string>, LangError>)
    ensures r == Validate(args)
  {
    var langs: seq<string> := [];
    for i := 0 to |args|
      invariant Validate(args[..i]) == Ok(langs)
    {
      var n := Normalize(args[i]);
      if n.Err? {
        CollectFirstError(Normalize, args[..i], args[i], args[i + 1..], n.error);
        assert args[..i] + [args[i]] + args[i + 1..] == args;
        return Err(n.error);
      }
      CollectSnoc(Normalize, args[..i], args[i], langs, n.value);
      assert args[..i + 1] == args[..i] + [args[i]];
      langs := langs + [n.value];
    }
    assert args[..|args|] == args;
    r := Ok(langs);
  }

  /** `TessyLang.join(*args)` */
  method JoinLangs(args: seq<LangValue>) returns (r: Result<Joined, LangError>)
    ensures r == JoinSpec(args)
  {
    r := Ok(EmptyList);
    if |args| > 0 {
      if args[0].Sequence? {
        r := JoinLangs(args[0].items);
        return;
      }
      var langs := CollectCodes(args);
      if langs.Err? {
        return Err(langs.error);
      }
      if langs.value != [] {
        r := Ok(Joined(Join("+", langs.value)));
      }
    }
  }

  /** ["eng", "fra"] joins to "eng+fra". */
  lemma JoinEngFra()
    ensures JoinSpec([Str("eng"), Str("fra")]) == Ok(Joined("eng+fra"))
  {
    EngFraAccepted();
    EngFraText();
    JoinTwo(Str("eng"), Str("fra"), "eng", "fra", "eng+fra");
  }

  /** Both "eng" and "fra" are accepted as they are. */
  lemma EngFraAccepted()
    ensures Normalize(Str("eng")) == Ok("eng") && Normalize(Str("fra")) == Ok("fra")
  {
    EngAccepted();
    FraAccepted();
  }

  lemma EngAccepted()
    ensures Normalize(Str("eng")) == Ok("eng")
  {
    EngFraAreCodes();
    NormalizeCode("eng");
  }

  lemma FraAccepted()
    ensures Normalize(Str("fra")) == Ok("fra")
  {
    EngFraAreCodes();
    NormalizeCode("fra");
  }

  lemma EngFraText()
    ensures "eng" + "+" + "fra" == "eng+fra"
  {
  }

  /** A str that is a code and has no surrounding whitespace is accepted as it is. */
  lemma NormalizeCode(s: string)
    requires NoSpaceIn(s) && Contains(s)
    ensures Normalize(Str(s)) == Ok(s)
  {
  }

  /** Two accepted elements, the first not a list or tuple, join to their codes around one `+`. */
  lemma JoinTwo(x: LangValue, y: LangValue, a: string, b: string, joined: string)
    requires !x.Sequence? && Normalize(x) == Ok(a) && Normalize(y) == Ok(b)
    requires joined == a + "+" + b
    ensures JoinSpec([x, y]) == Ok(Joined(joined))
  {
    assert Collect(Normalize, []) == Ok([]);
    CollectSnoc(Normalize, [], x, [], a);
    assert [] + [x] == [x] && [] + [a] == [a];
    CollectSnoc(Normalize, [x], y, [a], b);
    assert [x] + [y] == [x, y] && [a] + [b] == [a, b];
    assert [a, b][1..] == [b];
    assert Join("+", [a, b]) == a + "+" + b;
  }

  lemma EngFraAreCodes()
    ensures Contains("eng") && Contains("fra")
  {
    assert CodesEF[1] == "eng" && CodesEF[8] == "fra";
  }

  /** "xyz" is no member's value, so joining it raises. */
  lemma JoinUnknown()
    ensures JoinSpec([Str("xyz")]) == Err(Unsupported("xyz"))
  {
    assert NoSpaceIn("xyz");
    XyzIsNoCode();
  }

  lemma XyzIsNoCode()
    ensures !Contains("xyz")
  {
    NoXIn(CodesAB);
    NoXIn(CodesCD);
    NoXIn(CodesEF);
    NoXIn(CodesGI);
    NoXIn(CodesJL);
    NoXIn(CodesMP);
    NoXIn(CodesRS);
    NoXIn(CodesTY);
  }

  /** A list whose codes all start with another letter than `x` does not hold "xyz". */
  lemma NoXIn(codes: seq<string>)
    requires forall i :: 0 <= i < |codes| ==> codes[i] != [] && codes[i][0] != 'x'
    ensures "xyz" !in codes
  {
  }
}
