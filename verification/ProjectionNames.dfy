/** Module names of packed projections: the printer, the parser, and how many names there are. */
module ProjectionNames {
  import opened Options
  import opened SetUnions

  predicate IsDigit(c: char) {
    '0' <= c <= '9'
  }

  predicate Numeral(s: string) {
    s != [] && forall i | 0 <= i < |s| :: IsDigit(s[i])
  }

  function DigitChar(d: nat): (c: char)
    requires d < 10
    ensures IsDigit(c)
  {
    '0' + d as char
  }

  function DigitValue(c: char): (d: nat)
    requires IsDigit(c)
    ensures d < 10 && DigitChar(d) == c
  {
    (c - '0') as nat
  }

  /** Decimal printing. */
  function Print(n: nat): (s: string)
    ensures Numeral(s)
    decreases n
  {
    if n < 10 then [DigitChar(n)] else Print(n / 10) + [DigitChar(n % 10)]
  }

  /** Python's `int` of a numeral. */
  function Read(s: string): nat
    requires Numeral(s)
  {
    if |s| == 1 then DigitValue(s[0])
    else 10 * Read(s[..|s| - 1]) + DigitValue(s[|s| - 1])
  }

  /** No superfluous zero in front. */
  predicate Plain(s: string) {
    |s| == 1 || (s != [] && s[0] != '0')
  }

  lemma {:induction false} ReadPrint(n: nat)
    ensures Read(Print(n)) == n
    decreases n
  {
    if n >= 10 {
      ReadPrint(n / 10);
      var s := Print(n);
      assert s[..|s| - 1] == Print(n / 10);
      assert DigitValue(DigitChar(n % 10)) == n % 10;
    } else {
      assert DigitValue(DigitChar(n)) == n;
    }
  }

  lemma {:induction false} PrintPlain(n: nat)
    ensures Plain(Print(n))
    ensures n > 0 ==> Print(n)[0] != '0'
    decreases n
  {
    if n >= 10 {
      PrintPlain(n / 10);
      assert Print(n)[0] == Print(n / 10)[0];
    } else if n > 0 {
      assert DigitValue(DigitChar(n)) == n;
    }
  }

  lemma {:induction false} ReadPositive(s: string)
    requires Numeral(s) && s[0] != '0'
    ensures Read(s) > 0
  {
    if |s| > 1 {
      ReadPositive(s[..|s| - 1]);
    }
  }

  /** Printing undoes reading exactly on the numerals without superfluous zeros. */
  lemma {:induction false} PrintReadIff(s: string)
    requires Numeral(s)
    ensures Print(Read(s)) == s <==> Plain(s)
  {
    if Print(Read(s)) == s {
      PrintPlain(Read(s));
    }
    if Plain(s) && |s| > 1 {
      var front := s[..|s| - 1];
      assert front[0] == s[0];
      PrintReadIff(front);
      ReadPositive(front);
      assert Read(s) / 10 == Read(front) && Read(s) % 10 == DigitValue(s[|s| - 1]);
      assert front + [s[|s| - 1]] == s;
    }
  }

  datatype Projection = Gate | Up | Down

  function ProjectionName(p: Projection): string {
    match p
    case Gate => "gate_proj"
    case Up => "up_proj"
    case Down => "down_proj"
  }

  function ParseProjection(s: string): Option<Projection> {
    if s == "gate_proj" then Some(Gate)
    else if s == "up_proj" then Some(Up)
    else if s == "down_proj" then Some(Down)
    else None
  }

  datatype Module = Module(layer: nat, expert: nat, projection: Projection)

  const LAYERS := "model.layers."
  const EXPERTS := ".mlp.experts."

  function SpelledProjection(p: Projection): string {
    "." + ProjectionName(p)
  }

  function SpelledExpert(expert: string, p: Projection): string {
    EXPERTS + (expert + SpelledProjection(p))
  }

  /** A module name with its two numbers spelled out. */
  function Spelled(layer: string, expert: string, p: Projection): string {
    LAYERS + (layer + SpelledExpert(expert, p))
  }

  function ModuleName(m: Module): string {
    Spelled(Print(m.layer), Print(m.expert), m.projection)
  }

  lemma Reassociated(a: string, b: string, c: string, d: string, e: string)
    ensures a + (b + (c + (d + e))) == a + b + c + d + e
  {}

  /** Names as they stand in a checkpoint. */
  lemma NamesInFull(m: Module)
    ensures ModuleName(m) == "model.layers." + Print(m.layer) + ".mlp.experts." + Print(m.expert)
                             + match m.projection
                               case Gate => ".gate_proj"
                               case Up => ".up_proj"
                               case Down => ".down_proj"
  {
    hide Print;
    Reassociated("model.layers.", Print(m.layer), ".mlp.experts.", Print(m.expert), SpelledProjection(m.projection));
  }

  /** Decimal digits, the most significant first. */
  lemma Digits(n: nat, d: nat)
    requires d < 10
    ensures Print(d) == ["0123456789"[d]]
    ensures n > 0 ==> Print(10 * n + d) == Print(n) + Print(d)
  {
    assert (10 * n + d) / 10 == n && (10 * n + d) % 10 == d;
  }

  function Strip(s: string, literal: string): Option<string> {
    if literal <= s then Some(s[|literal|..]) else None
  }

  /** The longest run of leading digits. */
  function DigitSpan(s: string): (n: nat)
    ensures n <= |s|
    ensures n > 0 ==> Numeral(s[..n])
    ensures n < |s| ==> !IsDigit(s[n])
  {
    if s == [] || !IsDigit(s[0]) then 0 else 1 + DigitSpan(s[1..])
  }

  datatype Numbered = Numbered(numeral: string, rest: string)

  function TakeNumeral(s: string): (r: Option<Numbered>)
    ensures r.Some? ==> Numeral(r.value.numeral) && s == r.value.numeral + r.value.rest
  {
    var n := DigitSpan(s);
    if n == 0 then None else Some(Numbered(s[..n], s[n..]))
  }

  datatype Parts = Parts(layer: string, expert: string, projection: Projection)

  /** The groups of the pattern match, from the last one outwards. */
  function MatchProjection(layer: string, expert: string, s: string): (r: Option<Parts>)
    ensures r.Some? ==> r.value.layer == layer && r.value.expert == expert
  {
    var tail := Strip(s, ".");
    if tail.None? then None
    else
      var p := ParseProjection(tail.value);
      if p.None? then None else Some(Parts(layer, expert, p.value))
  }

  function MatchExpert(layer: string, s: string): (r: Option<Parts>)
    ensures r.Some? ==> r.value.layer == layer && Numeral(r.value.expert)
  {
    var tail := Strip(s, EXPERTS);
    if tail.None? then None
    else
      var expert := TakeNumeral(tail.value);
      if expert.None? then None else MatchProjection(layer, expert.value.numeral, expert.value.rest)
  }

  function Match(s: string): (r: Option<Parts>)
    ensures r.Some? ==> Numeral(r.value.layer) && Numeral(r.value.expert)
  {
    var tail := Strip(s, LAYERS);
    if tail.None? then None
    else
      var layer := TakeNumeral(tail.value);
      if layer.None? then None else MatchExpert(layer.value.numeral, layer.value.rest)
  }

  function Parse(s: string): Option<Module> {
    var parts := Match(s);
    if parts.None? then None
    else Some(Module(Read(parts.value.layer), Read(parts.value.expert), parts.value.projection))
  }

  lemma StripLiteral(literal: string, rest: string)
    ensures Strip(literal + rest, literal) == Some(rest)
  {}

  lemma {:induction false} SpanStops(numeral: string, rest: string)
    requires forall i | 0 <= i < |numeral| :: IsDigit(numeral[i])
    requires rest != [] && !IsDigit(rest[0])
    ensures DigitSpan(numeral + rest) == |numeral|
  {
    var s := numeral + rest;
    if numeral == [] {
      assert s == rest;
    } else {
      SpanStops(numeral[1..], rest);
      assert s[1..] == numeral[1..] + rest;
    }
  }

  lemma TakesNumeral(numeral: string, rest: string)
    requires Numeral(numeral) && rest != [] && !IsDigit(rest[0])
    ensures TakeNumeral(numeral + rest) == Some(Numbered(numeral, rest))
  {
    SpanStops(numeral, rest);
    var s := numeral + rest;
    assert s[..|numeral|] == numeral && s[|numeral|..] == rest;
  }

  lemma MatchesProjection(layer: string, expert: string, p: Projection)
    ensures MatchProjection(layer, expert, SpelledProjection(p)) == Some(Parts(layer, expert, p))
  {
    StripLiteral(".", ProjectionName(p));
  }

  lemma MatchesExpert(layer: string, expert: string, p: Projection)
    requires Numeral(expert)
    ensures MatchExpert(layer, SpelledExpert(expert, p)) == Some(Parts(layer, expert, p))
  {
    StripLiteral(EXPERTS, expert + SpelledProjection(p));
    TakesNumeral(expert, SpelledProjection(p));
    MatchesProjection(layer, expert, p);
  }

  /** The pattern accepts every spelling and returns its groups. */
  lemma MatchSpelled(layer: string, expert: string, p: Projection)
    requires Numeral(layer) && Numeral(expert)
    ensures Match(Spelled(layer, expert, p)) == Some(Parts(layer, expert, p))
  {
    StripLiteral(LAYERS, layer + SpelledExpert(expert, p));
    TakesNumeral(layer, SpelledExpert(expert, p));
    MatchesExpert(layer, expert, p);
  }

  lemma StripRebuilds(s: string, literal: string)
    requires Strip(s, literal).Some?
    ensures s == literal + Strip(s, literal).value
  {}

  lemma MatchedProjection(layer: string, expert: string, s: string)
    requires MatchProjection(layer, expert, s).Some?
    ensures s == SpelledProjection(MatchProjection(layer, expert, s).value.projection)
  {
    StripRebuilds(s, ".");
  }

  lemma MatchedExpert(layer: string, s: string)
    requires MatchExpert(layer, s).Some?
    ensures var r := MatchExpert(layer, s).value; s == SpelledExpert(r.expert, r.projection)
  {
    StripRebuilds(s, EXPERTS);
    var expert := TakeNumeral(Strip(s, EXPERTS).value).value;
    MatchedProjection(layer, expert.numeral, expert.rest);
  }

  /** The pattern accepts nothing but spellings. */
  lemma MatchIsSpelled(s: string)
    requires Match(s).Some?
    ensures var r := Match(s).value; s == Spelled(r.layer, r.expert, r.projection)
  {
    StripRebuilds(s, LAYERS);
    var layer := TakeNumeral(Strip(s, LAYERS).value).value;
    MatchedExpert(layer.numeral, layer.rest);
  }

  /** The parser undoes the printer. */
  lemma ParsePrinted(m: Module)
    ensures Parse(ModuleName(m)) == Some(m)
  {
    MatchSpelled(Print(m.layer), Print(m.expert), m.projection);
    ReadPrint(m.layer);
    ReadPrint(m.expert);
  }

  lemma SpelledInjective(a: Parts, b: Parts)
    requires Numeral(a.layer) && Numeral(a.expert) && Numeral(b.layer) && Numeral(b.expert)
    requires Spelled(a.layer, a.expert, a.projection) == Spelled(b.layer, b.expert, b.projection)
    ensures a == b
  {
    MatchSpelled(a.layer, a.expert, a.projection);
    MatchSpelled(b.layer, b.expert, b.projection);
  }

  /** The printer undoes the parser exactly on the names whose numbers carry no superfluous zeros. */
  lemma PrintParsedIff(s: string)
    requires Parse(s).Some?
    ensures ModuleName(Parse(s).value) == s <==> Plain(Match(s).value.layer) && Plain(Match(s).value.expert)
  {
    var parts, m := Match(s).value, Parse(s).value;
    MatchIsSpelled(s);
    PrintReadIff(parts.layer);
    PrintReadIff(parts.expert);
    if ModuleName(m) == s {
      SpelledInjective(parts, Parts(Print(m.layer), Print(m.expert), m.projection));
    }
  }

  lemma NamesInjective(a: Module, b: Module)
    requires ModuleName(a) == ModuleName(b)
    ensures a == b
  {
    ParsePrinted(a);
    ParsePrinted(b);
  }

  lemma {:induction false} ReadPadded(s: string)
    requires Numeral(s)
    ensures Numeral("0" + s) && Read("0" + s) == Read(s)
  {
    var padded := "0" + s;
    if |s| == 1 {
      assert padded[..1] == "0";
    } else {
      ReadPadded(s[..|s| - 1]);
      assert padded[..|padded| - 1] == "0" + s[..|s| - 1];
    }
  }

  /** The name of a module with one leading zero before its layer. */
  function PaddedName(m: Module): string {
    Spelled("0" + Print(m.layer), Print(m.expert), m.projection)
  }

  /** Every module has a second name that parses to it: the pattern admits leading zeros. */
  lemma LeadingZeroIsLost(m: Module)
    ensures Parse(PaddedName(m)) == Some(m) && PaddedName(m) != ModuleName(m)
  {
    var padded := "0" + Print(m.layer);
    ReadPadded(Print(m.layer));
    ReadPrint(m.layer);
    ReadPrint(m.expert);
    MatchSpelled(padded, Print(m.expert), m.projection);
    if Spelled(padded, Print(m.expert), m.projection) == ModuleName(m) {
      SpelledInjective(Parts(padded, Print(m.expert), m.projection),
                       Parts(Print(m.layer), Print(m.expert), m.projection));
    }
  }

  function ExpertModules(layer: nat, expert: nat): set<string> {
    {ModuleName(Module(layer, expert, Gate)), ModuleName(Module(layer, expert, Up)),
     ModuleName(Module(layer, expert, Down))}
  }

  function Experts(layer: nat): nat -> set<string> {
    (expert: nat) => ExpertModules(layer, expert)
  }

  /** `_expected_modules` of one layer. */
  function ExpectedModules(layer: nat, experts: nat): set<string> {
    Union(Experts(layer), 0, experts)
  }

  function Layers(experts: nat): nat -> set<string> {
    (layer: nat) => ExpectedModules(layer, experts)
  }

  /** The names of `layers` consecutive layers. */
  function CumulativeModules(first: nat, layers: nat, experts: nat): set<string> {
    Union(Layers(experts), first, layers)
  }

  lemma ExpertNamed(layer: nat, expert: nat, name: string) returns (m: Module)
    requires name in ExpertModules(layer, expert)
    ensures m.layer == layer && m.expert == expert && ModuleName(m) == name
  {
    m := Module(layer, expert,
                if name == ModuleName(Module(layer, expert, Gate)) then Gate
                else if name == ModuleName(Module(layer, expert, Up)) then Up else Down);
  }

  /** Every expected name is printed from a module of the layer. */
  lemma ExpectedNamed(layer: nat, experts: nat, name: string) returns (m: Module)
    requires name in ExpectedModules(layer, experts)
    ensures m.layer == layer && m.expert < experts && ModuleName(m) == name
  {
    var expert := Owner(Experts(layer), 0, experts, name);
    m := ExpertNamed(layer, expert, name);
  }

  /** Every module of the layer is expected. */
  lemma NamedExpected(m: Module, experts: nat)
    requires m.expert < experts
    ensures ModuleName(m) in ExpectedModules(m.layer, experts)
  {
    Contains(Experts(m.layer), 0, experts, m.expert);
    assert m == Module(m.layer, m.expert, m.projection);
    match m.projection
    case Gate =>
    case Up =>
    case Down =>
  }

  lemma ThreePerExpert(layer: nat, expert: nat)
    ensures |ExpertModules(layer, expert)| == 3
  {
    var g, u, d := Module(layer, expert, Gate), Module(layer, expert, Up), Module(layer, expert, Down);
    if ModuleName(g) == ModuleName(u) { NamesInjective(g, u); }
    if ModuleName(g) == ModuleName(d) { NamesInjective(g, d); }
    if ModuleName(u) == ModuleName(d) { NamesInjective(u, d); }
  }

  lemma ExpertsDisjoint(layer: nat, a: nat, b: nat)
    requires a != b
    ensures ExpertModules(layer, a) !! ExpertModules(layer, b)
  {
    forall name | name in ExpertModules(layer, a) ensures name !in ExpertModules(layer, b) {
      var m := ExpertNamed(layer, a, name);
      if name in ExpertModules(layer, b) {
        var n := ExpertNamed(layer, b, name);
        NamesInjective(m, n);
      }
    }
  }

  /** No name belongs to two layers. */
  lemma LayersDisjoint(a: nat, b: nat, experts: nat)
    requires a != b
    ensures ExpectedModules(a, experts) !! ExpectedModules(b, experts)
  {
    forall name | name in ExpectedModules(a, experts) ensures name !in ExpectedModules(b, experts) {
      var m := ExpectedNamed(a, experts, name);
      if name in ExpectedModules(b, experts) {
        var n := ExpectedNamed(b, experts, name);
        NamesInjective(m, n);
      }
    }
  }

  /** Every layer has three names per expert. */
  lemma ExpectedCount(layer: nat, experts: nat)
    ensures |ExpectedModules(layer, experts)| == Times(experts, 3)
  {
    forall i, j: nat | i != j ensures Experts(layer)(i) !! Experts(layer)(j) {
      ExpertsDisjoint(layer, i, j);
    }
    forall i ensures |Experts(layer)(i)| == 3 {
      ThreePerExpert(layer, i);
    }
    UnionSize(Experts(layer), 0, experts, 3);
  }

  /** Layers never share a name, so n layers have n times three names per expert. */
  lemma CumulativeCount(first: nat, layers: nat, experts: nat)
    ensures |CumulativeModules(first, layers, experts)| == Times(layers, Times(experts, 3))
  {
    forall i, j: nat | i != j ensures Layers(experts)(i) !! Layers(experts)(j) {
      LayersDisjoint(i, j, experts);
    }
    forall i ensures |Layers(experts)(i)| == Times(experts, 3) {
      ExpectedCount(i, experts);
    }
    UnionSize(Layers(experts), first, layers, Times(experts, 3));
  }

  /** The tensors of one packed module. */
  function TensorNames(name: string): set<string> {
    {name + ".trellis", name + ".suh", name + ".svh", name + ".mcg"}
  }

  function AllTensors(names: set<string>): set<string> {
    set name, t | name in names && t in TensorNames(name) :: t
  }

  /** Everything before the last dot. */
  function Stem(s: string): string {
    if s == [] || s[|s| - 1] == '.' then (if s == [] then s else s[..|s| - 1]) else Stem(s[..|s| - 1])
  }

  lemma {:induction false} StemOf(name: string, suffix: string)
    requires forall i | 0 <= i < |suffix| :: suffix[i] != '.'
    ensures Stem(name + "." + suffix) == name
  {
    var s := name + "." + suffix;
    if suffix == [] {
      assert s[..|s| - 1] == name;
    } else {
      StemOf(name, suffix[..|suffix| - 1]);
      assert s[..|s| - 1] == name + "." + suffix[..|suffix| - 1];
    }
  }

  lemma FourPerModule(name: string)
    ensures |TensorNames(name)| == 4
    ensures forall t | t in TensorNames(name) :: Stem(t) == name
  {
    assert name + ".trellis" == name + "." + "trellis" && name + ".suh" == name + "." + "suh";
    assert name + ".svh" == name + "." + "svh" && name + ".mcg" == name + "." + "mcg";
    StemOf(name, "trellis");
    StemOf(name, "suh");
    StemOf(name, "svh");
    StemOf(name, "mcg");
    var n := |name|;
    var a, b, c, d := name + ".trellis", name + ".suh", name + ".svh", name + ".mcg";
    assert a[n + 1] == 't' && b[n + 1] == 's' && c[n + 1] == 's' && d[n + 1] == 'm';
    assert b[n + 2] == 'u' && c[n + 2] == 'v';
  }

  lemma {:induction false} TensorCount(names: set<string>)
    ensures |AllTensors(names)| == 4 * |names|
  {
    if names != {} {
      var name :| name in names;
      var rest := names - {name};
      TensorCount(rest);
      FourPerModule(name);
      assert AllTensors(names) == AllTensors(rest) + TensorNames(name);
      forall t | t in AllTensors(rest) ensures t !in TensorNames(name) {
        var other :| other in rest && t in TensorNames(other);
        FourPerModule(other);
      }
      DisjointSum(AllTensors(rest), TensorNames(name));
    }
  }

  /** A full export declares twelve tensors per expert and layer, all with different names. */
  lemma ExportTensorCount(first: nat, layers: nat, experts: nat)
    ensures |AllTensors(CumulativeModules(first, layers, experts))| == 4 * Times(layers, Times(experts, 3))
  {
    CumulativeCount(first, layers, experts);
    TensorCount(CumulativeModules(first, layers, experts));
  }
}
