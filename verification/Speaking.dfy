/**
  The chain of migrations that reshapes the speaking parts: 0076, then 0087, 0088, 0089 and 0090. Each
  rewrites the JSON constraints of a part in place; a part without constraints counts as one with none set.
 */
module Speaking {
  import opened Common

  datatype Code = Speaking1 | Speaking2 | Speaking3 | Speaking4 | OtherCode(name: string)

  datatype Turn =
    | Identity | TopicQuestion | RoleplayResponse | RoleplayInitiate | ReadAloud | Presentation | FollowUp
    | OtherTurn(name: string)

  /** The constraint keys these migrations name; any other key is `OtherKey`. */
  datatype Key =
    | RequiredTurns | AllowedTurns | MaximumQuestions | TurnTimings | SingletonTurns
    | SuggestedPreparation | SuggestedResponse | SpokenHeading | DefaultHeadingGap
    | OtherKey(name: string)

  datatype Timing = Timing(preparation: int, response: int)

  /** A JSON value: the shapes the migrations write, and any other as `Raw`. */
  datatype Value =
    | Turns(turns: seq<Turn>) | Number(n: int) | Flag(on: bool) | Timings(timings: map<Turn, Timing>)
    | Raw(text: string)

  type Constraints = map<Key, Value>

  datatype Part = Part(code: Code, questionLimit: Option<int>, minimumQuestions: int, constraints: Option<Constraints>)

  predicate IsSpeaking(c: Code) {
    !c.OtherCode?
  }

  function Load(p: Part): Constraints {
    if p.constraints.None? then map[] else p.constraints.value
  }

  /** The key at the value, or popped. */
  function SetOrPop(c: Constraints, k: Key, v: Option<Value>): Constraints {
    match v
    case Some(value) => c[k := value]
    case None => c - {k}
  }

  function AsNumber(n: Option<int>): Option<Value> {
    match n
    case Some(i) => Some(Number(i))
    case None => None
  }

  // ---------------------------------------------------------------- the tables of 0087 and 0088

  function TurnTiming(t: Turn): Timing {
    match t
    case Identity => Timing(0, 30)
    case TopicQuestion => Timing(0, 30)
    case RoleplayResponse => Timing(0, 60)
    case RoleplayInitiate => Timing(0, 60)
    case ReadAloud => Timing(20, 90)
    case Presentation => Timing(60, 120)
    case FollowUp => Timing(0, 40)
    case OtherTurn(_) => Timing(0, 0)
  }

  datatype Shape = Shape(
    limit: Option<int>, minimum: int, maximum: Option<int>,
    required: seq<Turn>, allowed: seq<Turn>, singleton: seq<Turn>)

  const ROLEPLAYS := [RoleplayResponse, RoleplayInitiate]

  /** `_TARGET` of 0087. */
  function Target87(c: Code): Shape
    requires IsSpeaking(c)
    ensures Target87(c).required != []
  {
    match c
    case Speaking1 =>
      Shape(None, 2, Some(6), [Identity, TopicQuestion], [Identity, TopicQuestion, FollowUp], [Identity])
    case Speaking2 => Shape(Some(2), 2, None, ROLEPLAYS, ROLEPLAYS, ROLEPLAYS)
    case Speaking3 => Shape(None, 2, Some(4), [ReadAloud, FollowUp], [ReadAloud, FollowUp], [ReadAloud])
    case Speaking4 => Shape(None, 2, Some(4), [Presentation, FollowUp], [Presentation, FollowUp], [Presentation])
  }

  /** `_PREVIOUS` of 0087, what 0086 left behind; the singleton column is not part of it. */
  function Previous87(c: Code): Shape
    requires IsSpeaking(c)
  {
    match c
    case Speaking1 => Shape(None, 2, Some(6), [Identity, TopicQuestion], [Identity, TopicQuestion, FollowUp], [])
    case Speaking2 => Shape(Some(2), 2, None, ROLEPLAYS, ROLEPLAYS, [])
    case Speaking3 => Shape(Some(1), 1, None, [ReadAloud], [ReadAloud], [])
    case Speaking4 => Shape(None, 2, Some(3), [Presentation, FollowUp], [Presentation, FollowUp], [])
  }

  /** `_LEGACY_SUGGESTED` of 0087. */
  function LegacySuggested(c: Code): Timing
    requires IsSpeaking(c)
  {
    match c
    case Speaking1 => Timing(0, 45)
    case Speaking2 => Timing(0, 60)
    case Speaking3 => Timing(20, 90)
    case Speaking4 => Timing(60, 120)
  }

  datatype Caps = Caps(limit: Option<int>, maximum: Option<int>, singleton: seq<Turn>)

  /** `_UNCAPPED` and `_PREVIOUS` of 0088. */
  function Uncapped88(c: Code): Caps
    requires IsSpeaking(c)
  {
    match c
    case Speaking1 => Caps(None, None, [Identity])
    case Speaking2 => Caps(None, None, [])
    case Speaking3 => Caps(None, None, [ReadAloud])
    case Speaking4 => Caps(None, None, [Presentation])
  }

  function Previous88(c: Code): Caps
    requires IsSpeaking(c)
  {
    match c
    case Speaking1 => Caps(None, Some(6), [Identity])
    case Speaking2 => Caps(Some(2), None, ROLEPLAYS)
    case Speaking3 => Caps(None, Some(4), [ReadAloud])
    case Speaking4 => Caps(None, Some(4), [Presentation])
  }

  const DEFAULT_HEADING_GAP := 3

  // ---------------------------------------------------------------- one row through each migration

  function Shaped(p: Part, s: Shape, timings: Option<Value>, singleton: Option<Value>, suggested: Timing): Part {
    var c0 := Load(p)[RequiredTurns := Turns(s.required)][AllowedTurns := Turns(s.allowed)];
    var c1 := SetOrPop(c0, MaximumQuestions, AsNumber(s.maximum));
    var c2 := SetOrPop(SetOrPop(c1, TurnTimings, timings), SingletonTurns, singleton);
    var c3 := c2[SuggestedPreparation := Number(suggested.preparation)];
    var c4 := c3[SuggestedResponse := Number(suggested.response)];
    Part(p.code, s.limit, s.minimum, Some(c4))
  }

  function TimingsOf(turns: seq<Turn>): map<Turn, Timing> {
    map t | t in turns :: TurnTiming(t)
  }

  function Up87(p: Part): Part {
    if !IsSpeaking(p.code) then p
    else
      var s := Target87(p.code);
      Shaped(p, s, Some(Timings(TimingsOf(s.allowed))), Some(Turns(s.singleton)), TurnTiming(s.required[0]))
  }

  function Down87(p: Part): Part {
    if !IsSpeaking(p.code) then p
    else Shaped(p, Previous87(p.code), None, None, LegacySuggested(p.code))
  }

  function Capped(p: Part, caps: Caps): Part {
    var c := SetOrPop(Load(p), MaximumQuestions, AsNumber(caps.maximum))[SingletonTurns := Turns(caps.singleton)];
    Part(p.code, caps.limit, p.minimumQuestions, Some(c))
  }

  function Up88(p: Part): Part {
    if IsSpeaking(p.code) then Capped(p, Uncapped88(p.code)) else p
  }

  function Down88(p: Part): Part {
    if IsSpeaking(p.code) then Capped(p, Previous88(p.code)) else p
  }

  function Up89(p: Part): Part {
    if !IsSpeaking(p.code) then p
    else p.(constraints := Some(
      Load(p)[SpokenHeading := Flag(p.code == Speaking2)][DefaultHeadingGap := Number(DEFAULT_HEADING_GAP)]))
  }

  function Down89(p: Part): Part {
    if !IsSpeaking(p.code) then p
    else p.(constraints := Some(Load(p) - {SpokenHeading} - {DefaultHeadingGap}))
  }

  function Up90(p: Part): Part {
    if IsSpeaking(p.code) then p.(constraints := Some(Load(p)[SpokenHeading := Flag(true)])) else p
  }

  function Down90(p: Part): Part {
    if IsSpeaking(p.code) then p.(constraints := Some(Load(p)[SpokenHeading := Flag(p.code == Speaking2)])) else p
  }

  function UpAll(p: Part): Part {
    Up90(Up89(Up88(Up87(p))))
  }

  function DownAll(p: Part): Part {
    Down87(Down88(Down89(Down90(p))))
  }

  function Pointed76(p: Part, limit: Option<int>, minimum: int, turns: seq<Turn>): Part {
    if p.code != Speaking3 then p
    else Part(p.code, limit, minimum,
              Some(Load(p)[RequiredTurns := Turns(turns)][AllowedTurns := Turns(turns)]))
  }

  function Up76(p: Part): Part {
    Pointed76(p, Some(1), 1, [ReadAloud])
  }

  function Down76(p: Part): Part {
    Pointed76(p, None, 2, [ReadAloud, FollowUp])
  }

  // ---------------------------------------------------------------- the same, as the loops do it

  /** One direction of one migration. */
  datatype Revision = Rev76(up: bool) | Rev87(up: bool) | Rev88(up: bool) | Rev89(up: bool) | Rev90(up: bool)

  function Rewritten(r: Revision, p: Part): Part {
    match r
    case Rev76(up) => if up then Up76(p) else Down76(p)
    case Rev87(up) => if up then Up87(p) else Down87(p)
    case Rev88(up) => if up then Up88(p) else Down88(p)
    case Rev89(up) => if up then Up89(p) else Down89(p)
    case Rev90(up) => if up then Up90(p) else Down90(p)
  }

  /** The loop body of 0076. */
  method Point(p: Part, up: bool) returns (q: Part)
    requires p.code == Speaking3
    ensures q == Rewritten(Rev76(up), p)
  {
    var turns := if up then [ReadAloud] else [ReadAloud, FollowUp];
    var c := Load(p);
    c := c[RequiredTurns := Turns(turns)];
    c := c[AllowedTurns := Turns(turns)];
    q := if up then Part(p.code, Some(1), 1, Some(c)) else Part(p.code, None, 2, Some(c));
  }

  /** The loop body of 0087. */
  method Reshape(p: Part, up: bool) returns (q: Part)
    requires IsSpeaking(p.code)
    ensures q == Rewritten(Rev87(up), p)
  {
    var s := if up then Target87(p.code) else Previous87(p.code);
    var c := Load(p);
    c := c[RequiredTurns := Turns(s.required)];
    c := c[AllowedTurns := Turns(s.allowed)];
    if s.maximum.None? {
      c := c - {MaximumQuestions};
    } else {
      c := c[MaximumQuestions := Number(s.maximum.value)];
    }
    if up {
      c := c[TurnTimings := Timings(TimingsOf(s.allowed))];
      c := c[SingletonTurns := Turns(s.singleton)];
      var primary := TurnTiming(s.required[0]);
      c := c[SuggestedPreparation := Number(primary.preparation)];
      c := c[SuggestedResponse := Number(primary.response)];
    } else {
      c := c - {TurnTimings};
      c := c - {SingletonTurns};
      var legacy := LegacySuggested(p.code);
      c := c[SuggestedPreparation := Number(legacy.preparation)];
      c := c[SuggestedResponse := Number(legacy.response)];
    }
    q := Part(p.code, s.limit, s.minimum, Some(c));
  }

  /** The loop body of 0088. */
  method Recap(p: Part, up: bool) returns (q: Part)
    requires IsSpeaking(p.code)
    ensures q == Rewritten(Rev88(up), p)
  {
    var caps := if up then Uncapped88(p.code) else Previous88(p.code);
    var c := Load(p);
    if caps.maximum.None? {
      c := c - {MaximumQuestions};
    } else {
      c := c[MaximumQuestions := Number(caps.maximum.value)];
    }
    c := c[SingletonTurns := Turns(caps.singleton)];
    q := p.(questionLimit := caps.limit, constraints := Some(c));
  }

  /** The loop body of 0089. */
  method PutHeadings(p: Part, add: bool) returns (q: Part)
    requires IsSpeaking(p.code)
    ensures q == Rewritten(Rev89(add), p)
  {
    var c := Load(p);
    if add {
      c := c[SpokenHeading := Flag(p.code == Speaking2)];
      c := c[DefaultHeadingGap := Number(DEFAULT_HEADING_GAP)];
    } else {
      c := c - {SpokenHeading};
      c := c - {DefaultHeadingGap};
    }
    q := p.(constraints := Some(c));
  }

  /** The loop body of 0090: with the function its upgrade or its downgrade passes, it is that direction's rewrite. */
  method SpeakHeadings(p: Part, spokenHeadingFor: Code -> bool, ghost up: bool) returns (q: Part)
    requires IsSpeaking(p.code)
    requires forall code :: spokenHeadingFor(code) <==> up || code == Speaking2
    ensures q == Rewritten(Rev90(up), p)
  {
    var c := Load(p);
    c := c[SpokenHeading := Flag(spokenHeadingFor(p.code))];
    q := p.(constraints := Some(c));
  }

  method RewriteRow(r: Revision, p: Part) returns (q: Part)
    requires if r.Rev76? then p.code == Speaking3 else IsSpeaking(p.code)
    ensures q == Rewritten(r, p)
  {
    match r
    case Rev76(up) => q := Point(p, up);
    case Rev87(up) => q := Reshape(p, up);
    case Rev88(up) => q := Recap(p, up);
    case Rev89(add) => q := PutHeadings(p, add);
    case Rev90(up) => q := SpeakHeadings(p, if up then (c: Code) => true else (c: Code) => c == Speaking2, up);
  }

  // ---------------------------------------------------------------- the tables they run over

  const SPEAKING_CODES := [Speaking1, Speaking2, Speaking3, Speaking4]

  class PartTable {
    var rows: map<int, Part>

    constructor (rows: map<int, Part>)
      ensures this.rows == rows
    {
      this.rows := rows;
    }

    /** The rows of one part code, each read, rewritten and written back. */
    method ApplyTo(code: Code, r: Revision)
      requires if r.Rev76? then code == Speaking3 else IsSpeaking(code)
      modifies this
      ensures rows.Keys == old(rows).Keys
      ensures forall id :: id in rows ==>
                rows[id] == if old(rows)[id].code == code then Rewritten(r, old(rows)[id]) else old(rows)[id]
    {
      var rest := set id | id in rows && rows[id].code == code;
      while rest != {}
        invariant rows.Keys == old(rows).Keys
        invariant forall id :: id in rest ==> id in rows && old(rows)[id].code == code
        invariant forall id :: id in rows ==>
                    rows[id] == if old(rows)[id].code == code && id !in rest then Rewritten(r, old(rows)[id])
                                else old(rows)[id]
      {
        ghost var some := MemberOf(rest);
        var id :| id in rest;
        var row := RewriteRow(r, rows[id]);
        rows := rows[id := row];
        rest := rest - {id};
      }
    }

    /** The loop of 0087 to 0090: part code by part code. Only speaking parts change, each exactly once. */
    method Apply(r: Revision)
      requires !r.Rev76?
      modifies this
      ensures rows.Keys == old(rows).Keys
      ensures forall id :: id in rows ==> rows[id] == Rewritten(r, old(rows)[id])
    {
      for i := 0 to |SPEAKING_CODES|
        invariant rows.Keys == old(rows).Keys
        invariant forall id :: id in rows ==>
                    rows[id] == if old(rows)[id].code in SPEAKING_CODES[..i] then Rewritten(r, old(rows)[id])
                                else old(rows)[id]
      {
        assert SPEAKING_CODES[..i + 1] == SPEAKING_CODES[..i] + [SPEAKING_CODES[i]];
        OnceEach(i);
        SpeakingCodes(SPEAKING_CODES[i]);
        ApplyTo(SPEAKING_CODES[i], r);
      }
      assert SPEAKING_CODES[..|SPEAKING_CODES|] == SPEAKING_CODES;
      forall id | id in rows
        ensures rows[id] == Rewritten(r, old(rows)[id])
      {
        SpeakingCodes(old(rows)[id].code);
        OthersUntouched(r, old(rows)[id]);
      }
    }
  }

  /** A migration keeps part codes and leaves parts that are not speaking parts alone. */
  lemma OthersUntouched(r: Revision, p: Part)
    ensures Rewritten(r, p).code == p.code
    ensures !IsSpeaking(p.code) ==> Rewritten(r, p) == p
  {
  }

  lemma OnceEach(i: nat)
    requires i < |SPEAKING_CODES|
    ensures SPEAKING_CODES[i] !in SPEAKING_CODES[..i]
  {
  }

  lemma SpeakingCodes(c: Code)
    ensures c in SPEAKING_CODES <==> IsSpeaking(c)
  {
    assert SPEAKING_CODES[0] == Speaking1 && SPEAKING_CODES[1] == Speaking2;
    assert SPEAKING_CODES[2] == Speaking3 && SPEAKING_CODES[3] == Speaking4;
  }

  // ---------------------------------------------------------------- what the chain keeps

  predicate At(c: Constraints, k: Key, v: Option<Value>) {
    match v
    case Some(value) => k in c && c[k] == value
    case None => k !in c
  }

  /** The part already has everything a shape without clocks would write. */
  predicate HasShape(p: Part, s: Shape, suggested: Timing) {
    && p.questionLimit == s.limit && p.minimumQuestions == s.minimum && p.constraints.Some?
    && var c := p.constraints.value;
       && At(c, RequiredTurns, Some(Turns(s.required))) && At(c, AllowedTurns, Some(Turns(s.allowed)))
       && At(c, MaximumQuestions, AsNumber(s.maximum))
       && At(c, SuggestedPreparation, Some(Number(suggested.preparation)))
       && At(c, SuggestedResponse, Some(Number(suggested.response)))
       && TurnTimings !in c && SingletonTurns !in c && SpokenHeading !in c && DefaultHeadingGap !in c
  }

  /** The documented state of a speaking part after 0086: what 0087 says it would put back, no per-turn clocks,
      no singleton list and no spoken headings yet. */
  predicate InPost0086State(p: Part)
    requires IsSpeaking(p.code)
  {
    HasShape(p, Previous87(p.code), LegacySuggested(p.code))
  }

  lemma SameConstraints(a: Constraints, b: Constraints)
    requires forall k :: (k in a <==> k in b) && (k in a ==> a[k] == b[k])
    ensures a == b
  {
  }

  lemma UndoHeadings(p: Part)
    ensures Down90(Up90(Up89(p))) == Up89(p)
    ensures IsSpeaking(p.code) ==>
              Down89(Up89(p)) == p.(constraints := Some(Load(p) - {SpokenHeading} - {DefaultHeadingGap}))
  {
    if IsSpeaking(p.code) {
      SameConstraints(Load(Down90(Up90(Up89(p)))), Load(Up89(p)));
      SameConstraints(Load(Down89(Up89(p))), Load(p) - {SpokenHeading} - {DefaultHeadingGap});
    }
  }

  /** 0088 undone puts back what 0087 wrote, exactly. */
  lemma UndoCaps(p: Part)
    ensures Down88(Up88(Up87(p))) == Up87(p)
  {
    if IsSpeaking(p.code) {
      SameConstraints(Load(Down88(Up88(Up87(p)))), Load(Up87(p)));
    }
  }

  function WithoutHeadings(p: Part): Part {
    p.(constraints := Some(Load(p) - {SpokenHeading} - {DefaultHeadingGap}))
  }

  /** The heading keys pass through 0088 and 0087 untouched, so taking them out commutes with both. */
  lemma HeadingsPassThrough88(p: Part)
    requires IsSpeaking(p.code)
    ensures WithoutHeadings(Up88(p)) == Up88(WithoutHeadings(p))
  {
    SameConstraints(Load(WithoutHeadings(Up88(p))), Load(Up88(WithoutHeadings(p))));
  }

  lemma HeadingsPassShape(p: Part, s: Shape, timings: Option<Value>, singleton: Option<Value>, suggested: Timing)
    ensures WithoutHeadings(Shaped(p, s, timings, singleton, suggested))
            == Shaped(WithoutHeadings(p), s, timings, singleton, suggested)
  {
    SameConstraints(Load(WithoutHeadings(Shaped(p, s, timings, singleton, suggested))),
                    Load(Shaped(WithoutHeadings(p), s, timings, singleton, suggested)));
  }

  lemma HeadingsPassThrough87(p: Part)
    requires IsSpeaking(p.code)
    ensures WithoutHeadings(Up87(p)) == Up87(WithoutHeadings(p))
  {
    var s := Target87(p.code);
    HeadingsPassShape(
      p, s, Some(Timings(TimingsOf(s.allowed))), Some(Turns(s.singleton)), TurnTiming(s.required[0]));
  }

  /** 0087's downgrade overwrites everything its upgrade writes. */
  lemma UndoShape(p: Part)
    ensures Down87(Up87(p)) == Down87(p)
  {
    if IsSpeaking(p.code) {
      SameConstraints(Load(Down87(Up87(p))), Load(Down87(p)));
    }
  }

  lemma UpAllDownAll(p: Part)
    requires IsSpeaking(p.code)
    ensures DownAll(UpAll(p)) == Down87(WithoutHeadings(p))
  {
    UndoHeadings(Up88(Up87(p)));
    HeadingsPassThrough88(Up87(p));
    HeadingsPassThrough87(p);
    UndoCaps(WithoutHeadings(p));
    UndoShape(WithoutHeadings(p));
  }

  lemma ShapeIsFixed(p: Part, s: Shape, suggested: Timing)
    requires HasShape(p, s, suggested)
    ensures Shaped(WithoutHeadings(p), s, None, None, suggested) == p
  {
    var c, d := p.constraints.value, Load(Shaped(WithoutHeadings(p), s, None, None, suggested));
    forall k
      ensures (k in d <==> k in c) && (k in d ==> d[k] == c[k])
    {
      ShapedAt(WithoutHeadings(p), s, suggested, k);
    }
    SameConstraints(d, c);
  }

  /** Without clocks and singletons, a shape writes five keys, takes two out and leaves the others. */
  lemma ShapedAt(p: Part, s: Shape, suggested: Timing, k: Key)
    ensures var d := Load(Shaped(p, s, None, None, suggested));
            match k
            case RequiredTurns => At(d, k, Some(Turns(s.required)))
            case AllowedTurns => At(d, k, Some(Turns(s.allowed)))
            case MaximumQuestions => At(d, k, AsNumber(s.maximum))
            case TurnTimings => k !in d
            case SingletonTurns => k !in d
            case SuggestedPreparation => At(d, k, Some(Number(suggested.preparation)))
            case SuggestedResponse => At(d, k, Some(Number(suggested.response)))
            case _ => SameAt(d, Load(p), k)
  {
  }

  lemma PostStateIsFixed(p: Part)
    requires IsSpeaking(p.code) && InPost0086State(p)
    ensures Down87(WithoutHeadings(p)) == p
  {
    ShapeIsFixed(p, Previous87(p.code), LegacySuggested(p.code));
  }

  lemma FixedIsPostState(p: Part)
    requires IsSpeaking(p.code)
    ensures InPost0086State(Down87(WithoutHeadings(p)))
  {
  }

  /** Running the four migrations up and then down in reverse is the identity on a speaking part exactly when
      the part was in the documented post-0086 state; other parts are never touched. */
  lemma RoundTripIff(p: Part)
    ensures DownAll(UpAll(p)) == p <==> !IsSpeaking(p.code) || InPost0086State(p)
  {
    if IsSpeaking(p.code) {
      UpAllDownAll(p);
      FixedIsPostState(p);
      if InPost0086State(p) {
        PostStateIsFixed(p);
      }
    }
  }

  /** Each upgrade run again changes nothing. */
  lemma UpgradesAreIdempotent(p: Part)
    ensures Up87(Up87(p)) == Up87(p) && Up88(Up88(p)) == Up88(p)
    ensures Up89(Up89(p)) == Up89(p) && Up90(Up90(p)) == Up90(p)
  {
    if IsSpeaking(p.code) {
      SameConstraints(Load(Up87(Up87(p))), Load(Up87(p)));
      SameConstraints(Load(Up88(Up88(p))), Load(Up88(p)));
      SameConstraints(Load(Up89(Up89(p))), Load(Up89(p)));
      SameConstraints(Load(Up90(Up90(p))), Load(Up90(p)));
    }
  }

  /** Keys the migrations do not name keep their values, up and down. */
  lemma UnnamedKeysKept(p: Part, name: string)
    ensures SameAt(Load(UpAll(p)), Load(p), OtherKey(name)) && SameAt(Load(DownAll(p)), Load(p), OtherKey(name))
    ensures UpAll(p).code == p.code && DownAll(p).code == p.code
  {
    var k := OtherKey(name);
    UpsKeepKey(p, k);
    UpsKeepKey(Up87(p), k);
    UpsKeepKey(Up88(Up87(p)), k);
    UpsKeepKey(Up89(Up88(Up87(p))), k);
    DownsKeepKey(p, k);
    DownsKeepKey(Down90(p), k);
    DownsKeepKey(Down89(Down90(p)), k);
    DownsKeepKey(Down88(Down89(Down90(p))), k);
  }

  predicate SameAt(a: Constraints, b: Constraints, k: Key) {
    (k in a <==> k in b) && (k in a ==> a[k] == b[k])
  }

  lemma UpsKeepKey(p: Part, k: Key)
    requires k.OtherKey?
    ensures SameAt(Load(Up87(p)), Load(p), k) && SameAt(Load(Up88(p)), Load(p), k)
    ensures SameAt(Load(Up89(p)), Load(p), k) && SameAt(Load(Up90(p)), Load(p), k)
  {
  }

  lemma DownsKeepKey(p: Part, k: Key)
    requires k.OtherKey?
    ensures SameAt(Load(Down87(p)), Load(p), k) && SameAt(Load(Down88(p)), Load(p), k)
    ensures SameAt(Load(Down89(p)), Load(p), k) && SameAt(Load(Down90(p)), Load(p), k)
  {
  }

  /** A part's turns make sense: what is required and what may appear once is allowed, and the allowed turns
      are exactly the ones with a clock. */
  ghost predicate Coherent(p: Part) {
    var c := Load(p);
    && RequiredTurns in c && c[RequiredTurns].Turns? && AllowedTurns in c && c[AllowedTurns].Turns?
    && SingletonTurns in c && c[SingletonTurns].Turns? && TurnTimings in c && c[TurnTimings].Timings?
    && (forall t :: t in c[RequiredTurns].turns ==> t in c[AllowedTurns].turns)
    && (forall t :: t in c[SingletonTurns].turns ==> t in c[AllowedTurns].turns)
    && (forall t :: t in c[TurnTimings].timings <==> t in c[AllowedTurns].turns)
  }

  lemma CoherentAfter87(p: Part)
    requires IsSpeaking(p.code)
    ensures Coherent(Up87(p))
  {
  }

  /** After the whole chain, whatever state a speaking part was in before. */
  lemma CoherentAfterUpgrade(p: Part)
    requires IsSpeaking(p.code)
    ensures Coherent(Up88(Up87(p))) && Coherent(UpAll(p))
    ensures Load(UpAll(p))[SpokenHeading] == Flag(true) && MaximumQuestions !in Load(UpAll(p))
    ensures UpAll(p).questionLimit == None
  {
    CoherentAfter87(p);
    assert Coherent(Up88(Up87(p)));
  }

  // ---------------------------------------------------------------- where each part ends up

  /** The part's two columns and its constraints, key by key; a key that is None is not there. */
  ghost predicate Stands(
    p: Part, limit: Option<int>, minimum: int, maximum: Option<int>, required: seq<Turn>, allowed: seq<Turn>,
    singleton: Option<seq<Turn>>, clocks: Option<map<Turn, Timing>>, suggested: Timing,
    spokenHeading: Option<bool>, headingGap: Option<int>)
  {
    && p.questionLimit == limit && p.minimumQuestions == minimum && p.constraints.Some?
    && var c := p.constraints.value;
       && At(c, RequiredTurns, Some(Turns(required))) && At(c, AllowedTurns, Some(Turns(allowed)))
       && At(c, MaximumQuestions, AsNumber(maximum))
       && At(c, SingletonTurns, if singleton.Some? then Some(Turns(singleton.value)) else None)
       && At(c, TurnTimings, if clocks.Some? then Some(Timings(clocks.value)) else None)
       && At(c, SuggestedPreparation, Some(Number(suggested.preparation)))
       && At(c, SuggestedResponse, Some(Number(suggested.response)))
       && At(c, SpokenHeading, if spokenHeading.Some? then Some(Flag(spokenHeading.value)) else None)
       && At(c, DefaultHeadingGap, AsNumber(headingGap))
  }

  /** The suggested pair is the clock of the part's first required turn, which old clients read as the part's own;
      and it still is at the end of the chain. */
  lemma SuggestedIsHeadlineClock(p: Part)
    requires IsSpeaking(p.code)
    ensures SuggestsHeadline(Up87(p)) && SuggestsHeadline(UpAll(p))
  {
    var c, last := Load(Up87(p)), Load(UpAll(p));
    assert c[TurnTimings] == last[TurnTimings] && c[RequiredTurns] == last[RequiredTurns];
  }

  ghost predicate SuggestsHeadline(p: Part) {
    var c := Load(p);
    && RequiredTurns in c && c[RequiredTurns].Turns? && c[RequiredTurns].turns != []
    && TurnTimings in c && c[TurnTimings].Timings?
    && SuggestedPreparation in c && SuggestedResponse in c
    && var headline := c[RequiredTurns].turns[0];
       && headline in c[TurnTimings].timings
       && c[SuggestedPreparation] == Number(c[TurnTimings].timings[headline].preparation)
       && c[SuggestedResponse] == Number(c[TurnTimings].timings[headline].response)
  }

  /** A speaking part as 0090 leaves it: no limits, each turn with its clock, the headings on. */
  ghost predicate IsUpgraded(p: Part)
    requires IsSpeaking(p.code)
  {
    match p.code
    case Speaking1 =>
      Stands(p, None, 2, None, [Identity, TopicQuestion], [Identity, TopicQuestion, FollowUp], Some([Identity]),
             Some(map[Identity := Timing(0, 30), TopicQuestion := Timing(0, 30), FollowUp := Timing(0, 40)]),
             Timing(0, 30), Some(true), Some(3))
    case Speaking2 =>
      Stands(p, None, 2, None, [RoleplayResponse, RoleplayInitiate], [RoleplayResponse, RoleplayInitiate], Some([]),
             Some(map[RoleplayResponse := Timing(0, 60), RoleplayInitiate := Timing(0, 60)]),
             Timing(0, 60), Some(true), Some(3))
    case Speaking3 =>
      Stands(p, None, 2, None, [ReadAloud, FollowUp], [ReadAloud, FollowUp], Some([ReadAloud]),
             Some(map[ReadAloud := Timing(20, 90), FollowUp := Timing(0, 40)]),
             Timing(20, 90), Some(true), Some(3))
    case Speaking4 =>
      Stands(p, None, 2, None, [Presentation, FollowUp], [Presentation, FollowUp], Some([Presentation]),
             Some(map[Presentation := Timing(60, 120), FollowUp := Timing(0, 40)]),
             Timing(60, 120), Some(true), Some(3))
  }

  /** A speaking part as the downgrade of 0087 leaves it, the documented state after 0086. */
  ghost predicate IsDowngraded(p: Part)
    requires IsSpeaking(p.code)
  {
    match p.code
    case Speaking1 =>
      Stands(p, None, 2, Some(6), [Identity, TopicQuestion], [Identity, TopicQuestion, FollowUp], None, None,
             Timing(0, 45), None, None)
    case Speaking2 =>
      Stands(p, Some(2), 2, None, [RoleplayResponse, RoleplayInitiate], [RoleplayResponse, RoleplayInitiate],
             None, None, Timing(0, 60), None, None)
    case Speaking3 =>
      Stands(p, Some(1), 1, None, [ReadAloud], [ReadAloud], None, None, Timing(20, 90), None, None)
    case Speaking4 =>
      Stands(p, None, 2, Some(3), [Presentation, FollowUp], [Presentation, FollowUp], None, None,
             Timing(60, 120), None, None)
  }

  ghost predicate EndsAs(q: Part, s: Shape, caps: Caps, suggested: Timing) {
    Stands(q, caps.limit, s.minimum, caps.maximum, s.required, s.allowed, Some(caps.singleton),
           Some(TimingsOf(s.allowed)), suggested, Some(true), Some(DEFAULT_HEADING_GAP))
  }

  function WithHeadings(p: Part): Part {
    p.(constraints := Some(Load(p)[SpokenHeading := Flag(true)][DefaultHeadingGap := Number(DEFAULT_HEADING_GAP)]))
  }

  lemma HeadingsOn(p: Part)
    requires IsSpeaking(p.code)
    ensures Up90(Up89(p)) == WithHeadings(p)
  {
    SameConstraints(Load(Up90(Up89(p))), Load(WithHeadings(p)));
  }

  lemma LayersWrite(p: Part, s: Shape, caps: Caps, suggested: Timing)
    ensures var shaped := Shaped(p, s, Some(Timings(TimingsOf(s.allowed))), Some(Turns(s.singleton)), suggested);
            EndsAs(WithHeadings(Capped(shaped, caps)), s, caps, suggested)
  {
  }

  lemma ChainWrites(p: Part)
    requires IsSpeaking(p.code)
    ensures UpAll(p).code == p.code
    ensures var s := Target87(p.code); EndsAs(UpAll(p), s, Uncapped88(p.code), TurnTiming(s.required[0]))
  {
    HeadingsOn(Up88(Up87(p)));
    var s := Target87(p.code);
    LayersWrite(p, s, Uncapped88(p.code), TurnTiming(s.required[0]));
  }

  lemma EndsUpgraded(q: Part)
    requires IsSpeaking(q.code)
    requires var s := Target87(q.code); EndsAs(q, s, Uncapped88(q.code), TurnTiming(s.required[0]))
    ensures IsUpgraded(q)
  {
    match q.code {
      case Speaking1 => ClocksOfPart1();
      case Speaking2 => ClocksOfPart2();
      case Speaking3 => ClocksOfParts3And4();
      case Speaking4 => ClocksOfParts3And4();
    }
  }

  lemma ClocksOfPart1()
    ensures TimingsOf([Identity, TopicQuestion, FollowUp])
            == map[Identity := Timing(0, 30), TopicQuestion := Timing(0, 30), FollowUp := Timing(0, 40)]
  {
  }

  lemma ClocksOfPart2()
    ensures TimingsOf([RoleplayResponse, RoleplayInitiate])
            == map[RoleplayResponse := Timing(0, 60), RoleplayInitiate := Timing(0, 60)]
  {
  }

  lemma ClocksOfParts3And4()
    ensures TimingsOf([ReadAloud, FollowUp]) == map[ReadAloud := Timing(20, 90), FollowUp := Timing(0, 40)]
    ensures TimingsOf([Presentation, FollowUp]) == map[Presentation := Timing(60, 120), FollowUp := Timing(0, 40)]
  {
  }

  /** The documented state, written out. */
  lemma PostStateIff(q: Part)
    requires IsSpeaking(q.code)
    ensures InPost0086State(q) <==> IsDowngraded(q)
  {
  }

  lemma DowngradesToPostState(p: Part)
    requires IsSpeaking(p.code)
    ensures DownAll(p).code == p.code && InPost0086State(DownAll(p))
  {
  }

  /** Whatever a speaking part was before, the chain leaves it in the one state, and its undoing in the other. */
  lemma WhereTheChainEnds(p: Part)
    requires IsSpeaking(p.code)
    ensures UpAll(p).code == p.code && IsUpgraded(UpAll(p))
    ensures DownAll(p).code == p.code && IsDowngraded(DownAll(p))
  {
    ChainWrites(p);
    EndsUpgraded(UpAll(p));
    DowngradesToPostState(p);
    PostStateIff(DownAll(p));
  }

  // ---------------------------------------------------------------- where 0087 starts from

  /** 0076 leaves a Speaking 3 part with the limits and turns 0087 records for it: the part is then in the
      documented state exactly when the keys 0076 does not write already were. */
  lemma From0076(p: Part)
    requires p.code == Speaking3
    ensures InPost0086State(Up76(p)) <==>
            var c := Load(p);
            && MaximumQuestions !in c
            && At(c, SuggestedPreparation, Some(Number(20))) && At(c, SuggestedResponse, Some(Number(90)))
            && TurnTimings !in c && SingletonTurns !in c && SpokenHeading !in c && DefaultHeadingGap !in c
  {
  }

  /** 0076 undoes itself exactly on parts that had the paired turns it replaced. */
  lemma RoundTrip0076Iff(p: Part)
    ensures Down76(Up76(p)) == p <==>
            || p.code != Speaking3
            || (&& p.questionLimit == None && p.minimumQuestions == 2 && p.constraints.Some?
                && At(p.constraints.value, RequiredTurns, Some(Turns([ReadAloud, FollowUp])))
                && At(p.constraints.value, AllowedTurns, Some(Turns([ReadAloud, FollowUp]))))
  {
    if p.code == Speaking3 && p.constraints.Some?
      && At(p.constraints.value, RequiredTurns, Some(Turns([ReadAloud, FollowUp])))
      && At(p.constraints.value, AllowedTurns, Some(Turns([ReadAloud, FollowUp]))) {
      SameConstraints(Load(Down76(Up76(p))), Load(p));
    }
  }

  // ---------------------------------------------------------------- whole tables

  /** The four upgrades, one after the other. */
  method UpgradeAll(table: PartTable)
    modifies table
    ensures table.rows.Keys == old(table.rows).Keys
    ensures forall id :: id in table.rows ==> table.rows[id] == UpAll(old(table.rows)[id])
  {
    table.Apply(Rev87(true));
    table.Apply(Rev88(true));
    table.Apply(Rev89(true));
    table.Apply(Rev90(true));
  }

  /** The four downgrades, in reverse. */
  method DowngradeAll(table: PartTable)
    modifies table
    ensures table.rows.Keys == old(table.rows).Keys
    ensures forall id :: id in table.rows ==> table.rows[id] == DownAll(old(table.rows)[id])
  {
    table.Apply(Rev90(false));
    table.Apply(Rev89(false));
    table.Apply(Rev88(false));
    table.Apply(Rev87(false));
  }

  /** All four upgrades and then all four downgrades over a table of parts. */
  method UpThenDown(table: PartTable)
    modifies table
    ensures table.rows.Keys == old(table.rows).Keys
    ensures forall id :: id in table.rows ==>
              (table.rows[id] == old(table.rows)[id]
               <==> !IsSpeaking(old(table.rows)[id].code) || InPost0086State(old(table.rows)[id]))
  {
    ghost var before := table.rows;
    UpgradeAll(table);
    DowngradeAll(table);
    forall id | id in before
      ensures table.rows[id] == before[id] <==> !IsSpeaking(before[id].code) || InPost0086State(before[id])
    {
      RoundTripIff(before[id]);
    }
  }
}
