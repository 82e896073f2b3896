/**
  The PayU signature layouts of backend/app/core/payu_gateway.py. The digest is a parameter: everything here
  is about the strings that are hashed.
 */
module PayU {
  import opened Common
  import opened Numerals

  /** The names of the form fields; any other field of a payload is `Other`. */
  datatype Name =
    | Key | TxnId | Amount | ProductInfo | FirstName | Email | Udf(n: nat)
    | Status | AdditionalCharges | Hash
    | Phone | SuccessUrl | FailureUrl | ServiceProvider | Currency
    | Other(name: string)

  type Fields = map<Name, string>

  function Get(fields: Fields, name: Name): string {
    if name in fields then fields[name] else ""
  }

  // ---------------------------------------------------------------- joining and splitting

  function Join(parts: seq<string>): string {
    if parts == [] then ""
    else if |parts| == 1 then parts[0]
    else parts[0] + "|" + Join(parts[1..])
  }

  function Split(s: string): (parts: seq<string>)
    ensures parts != []
  {
    if s == [] then [""]
    else
      var rest := Split(s[1..]);
      if s[0] == '|' then [""] + rest else [[s[0]] + rest[0]] + rest[1..]
  }

  predicate PipeFree(s: string) {
    '|' !in s
  }

  ghost predicate AllPipeFree(parts: seq<string>) {
    forall i :: 0 <= i < |parts| ==> PipeFree(parts[i])
  }

  lemma {:induction false} SplitOne(s: string)
    requires PipeFree(s)
    ensures Split(s) == [s]
    decreases |s|
  {
    if s != [] {
      SplitOne(s[1..]);
      assert s == [s[0]] + s[1..];
    }
  }

  lemma {:induction false} SplitFirst(s: string, rest: string)
    requires PipeFree(s)
    ensures Split(s + "|" + rest) == [s] + Split(rest)
    decreases |s|
  {
    var whole := s + "|" + rest;
    if s == [] {
      assert whole[0] == '|' && whole[1..] == rest;
    } else {
      SplitFirst(s[1..], rest);
      assert whole[1..] == s[1..] + "|" + rest;
      assert s == [s[0]] + s[1..];
    }
  }

  /** Splitting undoes joining. */
  lemma {:induction false} SplitJoin(parts: seq<string>)
    requires parts != [] && AllPipeFree(parts)
    ensures Split(Join(parts)) == parts
    decreases |parts|
  {
    assert PipeFree(parts[0]);
    if |parts| == 1 {
      SplitOne(parts[0]);
    } else {
      SplitJoin(parts[1..]);
      SplitFirst(parts[0], Join(parts[1..]));
      assert parts == [parts[0]] + parts[1..];
    }
  }

  lemma {:induction false} JoinAppend(a: seq<string>, b: seq<string>)
    requires a != [] && b != []
    ensures Join(a + b) == Join(a) + "|" + Join(b)
    decreases |a|
  {
    if |a| == 1 {
      assert (a + b)[1..] == b;
    } else {
      JoinAppend(a[1..], b);
      assert (a + b)[1..] == a[1..] + b;
    }
  }

  // ---------------------------------------------------------------- the two layouts

  const HEAD := [Key, TxnId, Amount, ProductInfo, FirstName, Email]
  const UDF_FIELDS := [Udf(1), Udf(2), Udf(3), Udf(4), Udf(5)]
  const TAIL := [Email, FirstName, ProductInfo, Amount, TxnId, Key]
  const FIVE_EMPTY := ["", "", "", "", ""]

  function Values(f: Fields, names: seq<Name>): (parts: seq<string>)
    ensures |parts| == |names| && forall i :: 0 <= i < |names| ==> parts[i] == Get(f, names[i])
  {
    seq(|names|, i requires 0 <= i < |names| => Get(f, names[i]))
  }

  /** The values both layouts carry, in request order. */
  function Ordered(f: Fields): seq<string> {
    Values(f, HEAD) + Values(f, UDF_FIELDS)
  }

  function RequestHashString(f: Fields, salt: string): string {
    Join(Ordered(f)) + "|||||" + "|" + salt
  }

  function ResponseOrdered(f: Fields, salt: string): seq<string> {
    [salt, Get(f, Status)] + FIVE_EMPTY + Values(f, Reverse(UDF_FIELDS)) + Values(f, TAIL)
  }

  /** The charge PayU added, if it added any. */
  function Extra(f: Fields): string {
    Strip(Get(f, AdditionalCharges))
  }

  function ResponseHashString(f: Fields, salt: string): string {
    var base := Join(ResponseOrdered(f, salt));
    if Extra(f) != "" then Extra(f) + "|" + base else base
  }

  /** The request's fields as a list: udf6 to udf10 are hashed as five empty values. */
  function RequestOrdered(f: Fields, salt: string): seq<string> {
    Ordered(f) + FIVE_EMPTY + [salt]
  }

  /** The string the code concatenates is the join of all seventeen fields. */
  lemma RequestLayout(f: Fields, salt: string)
    ensures RequestHashString(f, salt) == Join(RequestOrdered(f, salt))
    ensures |RequestOrdered(f, salt)| == 17
  {
    var tail := FIVE_EMPTY + [salt];
    assert RequestOrdered(f, salt) == Ordered(f) + tail;
    JoinAppend(Ordered(f), tail);
    JoinAppend(FIVE_EMPTY, [salt]);
    FiveEmptyJoined();
    SixPipes(Join(Ordered(f)), salt);
  }

  lemma FiveEmptyJoined()
    ensures Join(FIVE_EMPTY) == "||||"
  {
    assert FIVE_EMPTY[1..] == ["", "", "", ""];
    assert ["", "", "", ""][1..] == ["", "", ""];
    assert ["", "", ""][1..] == ["", ""];
    assert ["", ""][1..] == [""];
  }

  lemma SixPipes(head: string, salt: string)
    ensures head + "|" + ("||||" + "|" + salt) == head + "|||||" + "|" + salt
  {
  }

  lemma ReverseValues(f: Fields, names: seq<Name>)
    ensures Reverse(Values(f, names)) == Values(f, Reverse(names))
  {
  }

  lemma TailIsHeadReversed()
    ensures TAIL == Reverse(HEAD) && Reverse(FIVE_EMPTY) == FIVE_EMPTY
  {
    assert forall i :: 0 <= i < 6 ==> TAIL[i] == HEAD[5 - i];
    assert forall i :: 0 <= i < 5 ==> FIVE_EMPTY[i] == "";
  }

  /** The covered values of a reply run backwards. */
  lemma BackwardsValues(f: Fields)
    ensures Values(f, Reverse(UDF_FIELDS)) + Values(f, TAIL) == Reverse(Ordered(f))
  {
    TailIsHeadReversed();
    ReverseValues(f, UDF_FIELDS);
    ReverseValues(f, HEAD);
    ReverseAppend(Values(f, HEAD), Values(f, UDF_FIELDS));
  }

  lemma ResponseShape(f: Fields, salt: string)
    ensures ResponseOrdered(f, salt) == [salt, Get(f, Status)] + FIVE_EMPTY + Reverse(Ordered(f))
  {
    BackwardsValues(f);
  }

  lemma RequestBackwards(f: Fields, salt: string)
    ensures Reverse(RequestOrdered(f, salt)) == [salt] + (FIVE_EMPTY + Reverse(Ordered(f)))
  {
    TailIsHeadReversed();
    ReverseAppend(Ordered(f) + FIVE_EMPTY, [salt]);
    ReverseAppend(Ordered(f), FIVE_EMPTY);
    assert Reverse([salt]) == [salt];
  }

  /** PayU signs its reply over the request fields backwards, with the status put in after the salt. */
  lemma ResponseIsReversedRequest(f: Fields, salt: string)
    ensures ResponseOrdered(f, salt) == [salt] + [Get(f, Status)] + Reverse(RequestOrdered(f, salt))[1..]
  {
    var middle := FIVE_EMPTY + Reverse(Ordered(f));
    RequestBackwards(f, salt);
    assert ([salt] + middle)[1..] == middle;
    ResponseShape(f, salt);
  }

  // ---------------------------------------------------------------- what a reply's string pins down

  /** The values the reply's signature covers. */
  datatype Signed = Signed(status: string, ordered: seq<string>, extra: string)

  function SignedPart(f: Fields): Signed {
    Signed(Get(f, Status), Ordered(f), Extra(f))
  }

  ghost predicate CleanReply(f: Fields, salt: string) {
    PipeFree(salt) && PipeFree(Get(f, Status)) && AllPipeFree(Ordered(f)) && PipeFree(Extra(f))
  }

  function ResponseParts(f: Fields, salt: string): seq<string> {
    (if Extra(f) != "" then [Extra(f)] else []) + ResponseOrdered(f, salt)
  }

  lemma PipeFreeAppend(a: seq<string>, b: seq<string>)
    requires AllPipeFree(a) && AllPipeFree(b)
    ensures AllPipeFree(a + b)
  {
  }

  lemma ResponsePipeFree(f: Fields, salt: string)
    requires CleanReply(f, salt)
    ensures AllPipeFree(ResponseOrdered(f, salt))
  {
    BackwardsValues(f);
    assert AllPipeFree(Reverse(Ordered(f)));
    assert AllPipeFree(FIVE_EMPTY);
    PipeFreeAppend([salt, Get(f, Status)], FIVE_EMPTY);
    PipeFreeAppend([salt, Get(f, Status)] + FIVE_EMPTY, Reverse(Ordered(f)));
    assert ResponseOrdered(f, salt) == [salt, Get(f, Status)] + FIVE_EMPTY + Reverse(Ordered(f));
  }

  lemma ResponseSplits(f: Fields, salt: string)
    requires CleanReply(f, salt)
    ensures Split(ResponseHashString(f, salt)) == ResponseParts(f, salt)
    ensures |ResponseOrdered(f, salt)| == 18
  {
    var base := ResponseOrdered(f, salt);
    ResponsePipeFree(f, salt);
    if Extra(f) != "" {
      JoinAppend([Extra(f)], base);
      PipeFreeAppend([Extra(f)], base);
    } else {
      assert [] + base == base;
    }
    SplitJoin(ResponseParts(f, salt));
  }

  // ---------------------------------------------------------------- counting the pipes

  function Pipes(s: string): nat {
    if s == [] then 0 else (if s[0] == '|' then 1 else 0) + Pipes(s[1..])
  }

  function PipesIn(parts: seq<string>): nat {
    if parts == [] then 0 else Pipes(parts[0]) + PipesIn(parts[1..])
  }

  lemma {:induction false} NoPipes(s: string)
    ensures Pipes(s) == 0 <==> PipeFree(s)
    decreases |s|
  {
    if s != [] {
      NoPipes(s[1..]);
      assert s == [s[0]] + s[1..];
    }
  }

  lemma {:induction false} PipesAppend(a: string, b: string)
    ensures Pipes(a + b) == Pipes(a) + Pipes(b)
    decreases |a|
  {
    if a == [] {
      assert a + b == b;
    } else {
      PipesAppend(a[1..], b);
      assert (a + b)[1..] == a[1..] + b;
    }
  }

  lemma {:induction false} NoPipesIn(parts: seq<string>)
    ensures PipesIn(parts) == 0 <==> AllPipeFree(parts)
    decreases |parts|
  {
    if parts != [] {
      NoPipes(parts[0]);
      NoPipesIn(parts[1..]);
      assert parts == [parts[0]] + parts[1..];
    }
  }

  /** Joining adds one pipe between every two parts to those the parts bring. */
  lemma {:induction false} PipesOfJoin(parts: seq<string>)
    requires parts != []
    ensures Pipes(Join(parts)) == |parts| - 1 + PipesIn(parts)
    decreases |parts|
  {
    if |parts| > 1 {
      PipesOfJoin(parts[1..]);
      PipesAppend(parts[0] + "|", Join(parts[1..]));
      PipesAppend(parts[0], "|");
      assert Pipes("|") == 1;
    } else {
      assert parts[1..] == [];
    }
  }

  /** A string reads as fields in two ways: then they are the same fields, if one side is pipe-free and the other
      has as many fields. */
  lemma SameFields(clean: seq<string>, other: seq<string>)
    requires AllPipeFree(clean) && Join(clean) == Join(other) && |clean| == |other| > 0
    ensures clean == other
  {
    PipesOfJoin(clean);
    PipesOfJoin(other);
    NoPipesIn(clean);
    NoPipesIn(other);
    SplitJoin(clean);
    SplitJoin(other);
  }

  lemma SameFirst(x: string, a: string, y: string, b: string)
    requires PipeFree(x) && PipeFree(y) && x + "|" + a == y + "|" + b
    ensures x == y
  {
    SplitFirst(x, a);
    SplitFirst(y, b);
    assert Split(x + "|" + a)[0] == x && Split(y + "|" + b)[0] == y;
  }

  lemma PartsJoined(f: Fields, salt: string)
    ensures Join(ResponseParts(f, salt)) == ResponseHashString(f, salt)
    ensures |ResponseOrdered(f, salt)| == 18
    ensures ResponseHashString(f, salt)
            == (if Extra(f) != "" then Extra(f) else salt) + "|"
               + Join(if Extra(f) != "" then ResponseOrdered(f, salt) else ResponseOrdered(f, salt)[1..])
  {
    var base := ResponseOrdered(f, salt);
    if Extra(f) != "" {
      JoinAppend([Extra(f)], base);
    } else {
      assert [] + base == base;
    }
  }

  /** What the signature leaves open: a reply without a charge of its own could stand for one whose charge is
      the salt itself. */
  predicate ChargeIsNot(f: Fields, salt: string) {
    Extra(f) == "" || Extra(f) != salt
  }

  /** A clean reply and any other with the same string: as many fields, the same fields. */
  lemma SameParts(f: Fields, fSalt: string, g: Fields, gSalt: string)
    requires CleanReply(f, fSalt) && PipeFree(gSalt)
    requires ChargeIsNot(f, gSalt) || CleanReply(g, gSalt)
    requires ResponseHashString(f, fSalt) == ResponseHashString(g, gSalt)
    ensures ResponseParts(f, fSalt) == ResponseParts(g, gSalt)
  {
    var mine, theirs := ResponseParts(f, fSalt), ResponseParts(g, gSalt);
    PartsJoined(f, fSalt);
    PartsJoined(g, gSalt);
    CleanParts(f, fSalt);
    PipesOfJoin(mine);
    PipesOfJoin(theirs);
    NoPipesIn(mine);
    if |mine| != |theirs| {
      if CleanReply(g, gSalt) {
        CleanParts(g, gSalt);
        NoPipesIn(theirs);
      } else {
        SameFirst(Extra(f), Join(ResponseOrdered(f, fSalt)), gSalt, Join(ResponseOrdered(g, gSalt)[1..]));
      }
      assert false;
    }
    SameFields(mine, theirs);
  }

  lemma CleanParts(f: Fields, salt: string)
    requires CleanReply(f, salt)
    ensures AllPipeFree(ResponseParts(f, salt))
  {
    ResponsePipeFree(f, salt);
  }

  lemma SameStringSameSigned(f: Fields, fSalt: string, g: Fields, gSalt: string)
    requires CleanReply(f, fSalt) && PipeFree(gSalt)
    requires ChargeIsNot(f, gSalt) || CleanReply(g, gSalt)
    requires ResponseHashString(f, fSalt) == ResponseHashString(g, gSalt)
    ensures fSalt == gSalt && SignedPart(f) == SignedPart(g)
  {
    SameParts(f, fSalt, g, gSalt);
    PartsJoined(f, fSalt);
    PartsJoined(g, gSalt);
    OptionalFirst(Extra(f), ResponseOrdered(f, fSalt), Extra(g), ResponseOrdered(g, gSalt));
    SameOrdered(f, fSalt, g, gSalt);
  }

  lemma SameSignedSameString(f: Fields, g: Fields, salt: string)
    requires SignedPart(f) == SignedPart(g)
    ensures ResponseHashString(f, salt) == ResponseHashString(g, salt)
  {
    ResponseShape(f, salt);
    ResponseShape(g, salt);
  }

  /** A pipe-free reply and any other, pipes in its values or not, have the same string exactly when they agree on
      the salt, on the status and every other signed field, and on the presence and value of the additional
      charge; unless the other has pipes and the charge of the first is the salt itself. */
  lemma ResponseStringIffSigned(f: Fields, fSalt: string, g: Fields, gSalt: string)
    requires CleanReply(f, fSalt) && PipeFree(gSalt)
    requires ChargeIsNot(f, gSalt) || CleanReply(g, gSalt)
    ensures ResponseHashString(f, fSalt) == ResponseHashString(g, gSalt)
            <==> fSalt == gSalt && SignedPart(f) == SignedPart(g)
  {
    if ResponseHashString(f, fSalt) == ResponseHashString(g, gSalt) {
      SameStringSameSigned(f, fSalt, g, gSalt);
    }
    if fSalt == gSalt && SignedPart(f) == SignedPart(g) {
      SameSignedSameString(f, g, fSalt);
    }
  }

  /** No other reply whatever has this reply's string, but one that agrees on everything signed. */
  ghost predicate Pinned(f: Fields, salt: string) {
    forall g: Fields :: ResponseHashString(g, salt) == ResponseHashString(f, salt) ==> SignedPart(g) == SignedPart(f)
  }

  /** The reply that reads a charge equal to the salt as the salt, and the salt as part of the status. */
  function Misread(f: Fields, salt: string): Fields {
    (f - {AdditionalCharges})[Status := salt + "|" + Get(f, Status)]
  }

  lemma MisreadHasSameString(f: Fields, salt: string)
    requires Extra(f) == salt != ""
    ensures ResponseHashString(Misread(f, salt), salt) == ResponseHashString(f, salt)
  {
    var g := Misread(f, salt);
    var rest := FIVE_EMPTY + Values(f, Reverse(UDF_FIELDS)) + Values(f, TAIL);
    ValuesAgree(g, f, Reverse(UDF_FIELDS));
    ValuesAgree(g, f, TAIL);
    assert Extra(g) == "";
    assert ResponseOrdered(f, salt) == [salt, Get(f, Status)] + rest;
    assert ResponseOrdered(g, salt) == [salt, salt + "|" + Get(f, Status)] + rest;
    JoinAppend([salt, Get(f, Status)], rest);
    JoinAppend([salt, salt + "|" + Get(f, Status)], rest);
    JoinTwo(salt, Get(f, Status));
    JoinTwo(salt, salt + "|" + Get(f, Status));
    Regroup(salt, salt, Get(f, Status), Join(rest));
  }

  lemma JoinTwo(a: string, b: string)
    ensures Join([a, b]) == a + "|" + b
  {
    assert [a, b][1..] == [b];
  }

  lemma Regroup(a: string, b: string, c: string, d: string)
    ensures a + "|" + (b + "|" + c) + "|" + d == a + "|" + (b + "|" + c + "|" + d)
  {
  }

  /** A pipe-free reply is pinned by its string exactly when its additional charge is not the salt. */
  lemma PinnedIff(f: Fields, salt: string)
    requires CleanReply(f, salt)
    ensures Pinned(f, salt) <==> ChargeIsNot(f, salt)
  {
    if ChargeIsNot(f, salt) {
      forall g: Fields | ResponseHashString(g, salt) == ResponseHashString(f, salt)
        ensures SignedPart(g) == SignedPart(f)
      {
        SameStringSameSigned(f, salt, g, salt);
      }
    } else {
      MisreadHasSameString(f, salt);
      assert |Get(Misread(f, salt), Status)| > |Get(f, Status)|;
      assert SignedPart(Misread(f, salt)).status != SignedPart(f).status;
    }
  }

  /** With as many fields behind it on either side, an optional first field is seen by the length alone. */
  lemma OptionalFirst(x: string, a: seq<string>, y: string, b: seq<string>)
    requires |a| == |b|
    requires (if x != "" then [x] else []) + a == (if y != "" then [y] else []) + b
    ensures x == y && a == b
  {
    var whole := (if x != "" then [x] else []) + a;
    assert a == whole[|whole| - |a|..] && b == whole[|whole| - |b|..];
    assert x != "" ==> whole[0] == x && |whole| == |a| + 1;
    assert y != "" ==> whole[0] == y && |whole| == |b| + 1;
  }

  lemma SameOrdered(f: Fields, fSalt: string, g: Fields, gSalt: string)
    requires ResponseOrdered(f, fSalt) == ResponseOrdered(g, gSalt)
    ensures fSalt == gSalt && Get(f, Status) == Get(g, Status) && Ordered(f) == Ordered(g)
  {
    var a, b := ResponseOrdered(f, fSalt), ResponseOrdered(g, gSalt);
    ResponseShape(f, fSalt);
    ResponseShape(g, gSalt);
    assert a[0] == fSalt && b[0] == gSalt && a[1] == Get(f, Status) && b[1] == Get(g, Status);
    assert a[7..] == Reverse(Ordered(f)) && b[7..] == Reverse(Ordered(g));
    ReverseTwice(Ordered(f));
    ReverseTwice(Ordered(g));
  }

  // ---------------------------------------------------------------- which value stands where

  /** No pipe in any of the values that are signed, nor in the salt. */
  ghost predicate NoPipeIn(f: Fields, salt: string) {
    && PipeFree(salt) && PipeFree(Get(f, Status))
    && PipeFree(Get(f, Key)) && PipeFree(Get(f, TxnId)) && PipeFree(Get(f, Amount))
    && PipeFree(Get(f, ProductInfo)) && PipeFree(Get(f, FirstName)) && PipeFree(Get(f, Email))
    && forall i :: 1 <= i <= 5 ==> PipeFree(Get(f, Udf(i)))
  }

  lemma OrderedAt(f: Fields)
    ensures var o := Ordered(f);
            && |o| == 11
            && o[0] == Get(f, Key) && o[1] == Get(f, TxnId) && o[2] == Get(f, Amount)
            && o[3] == Get(f, ProductInfo) && o[4] == Get(f, FirstName) && o[5] == Get(f, Email)
            && o[6] == Get(f, Udf(1)) && o[7] == Get(f, Udf(2)) && o[8] == Get(f, Udf(3))
            && o[9] == Get(f, Udf(4)) && o[10] == Get(f, Udf(5))
  {
  }

  lemma OrderedClean(f: Fields, salt: string)
    requires NoPipeIn(f, salt)
    ensures AllPipeFree(Ordered(f))
  {
    OrderedAt(f);
  }

  lemma RequestOrderedAt(f: Fields, salt: string)
    ensures var parts := RequestOrdered(f, salt);
            && |parts| == 17
            && parts[0] == Get(f, Key) && parts[1] == Get(f, TxnId) && parts[2] == Get(f, Amount)
            && parts[3] == Get(f, ProductInfo) && parts[4] == Get(f, FirstName) && parts[5] == Get(f, Email)
            && (forall i :: 1 <= i <= 5 ==> parts[5 + i] == Get(f, Udf(i)))
            && (forall k :: 11 <= k <= 15 ==> parts[k] == "")
            && parts[16] == salt
  {
    OrderedAt(f);
    assert RequestOrdered(f, salt)[..11] == Ordered(f);
    assert RequestOrdered(f, salt)[11..16] == FIVE_EMPTY;
  }

  /** The request's string, split: the merchant key, the transaction, the amount, the product, the first name, the
      email, the five user-defined fields in order, five empty values and the salt. */
  lemma RequestPositions(f: Fields, salt: string)
    requires NoPipeIn(f, salt)
    ensures var parts := Split(RequestHashString(f, salt));
            && |parts| == 17
            && parts[0] == Get(f, Key) && parts[1] == Get(f, TxnId) && parts[2] == Get(f, Amount)
            && parts[3] == Get(f, ProductInfo) && parts[4] == Get(f, FirstName) && parts[5] == Get(f, Email)
            && (forall i :: 1 <= i <= 5 ==> parts[5 + i] == Get(f, Udf(i)))
            && (forall k :: 11 <= k <= 15 ==> parts[k] == "")
            && parts[16] == salt
  {
    assert Split(RequestHashString(f, salt)) == RequestOrdered(f, salt) by {
      RequestSplits(f, salt);
    }
    RequestOrderedAt(f, salt);
  }

  lemma RequestSplits(f: Fields, salt: string)
    requires NoPipeIn(f, salt)
    ensures Split(RequestHashString(f, salt)) == RequestOrdered(f, salt)
  {
    RequestLayout(f, salt);
    OrderedClean(f, salt);
    assert AllPipeFree(FIVE_EMPTY);
    PipeFreeAppend(Ordered(f), FIVE_EMPTY);
    PipeFreeAppend(Ordered(f) + FIVE_EMPTY, [salt]);
    SplitJoin(RequestOrdered(f, salt));
  }

  /** The reply's fields: the salt, the status, five empty values, the user-defined fields backwards, and the rest
      backwards from the email to the merchant key. */
  lemma ReplyOrderedAt(f: Fields, salt: string)
    ensures var parts := ResponseOrdered(f, salt);
            && |parts| == 18 && parts[0] == salt && parts[1] == Get(f, Status)
            && (forall k :: 2 <= k <= 6 ==> parts[k] == "")
            && (forall i :: 1 <= i <= 5 ==> parts[12 - i] == Get(f, Udf(i)))
            && parts[12] == Get(f, Email) && parts[13] == Get(f, FirstName) && parts[14] == Get(f, ProductInfo)
            && parts[15] == Get(f, Amount) && parts[16] == Get(f, TxnId) && parts[17] == Get(f, Key)
  {
    ResponseShape(f, salt);
    ReversedAt(f);
    var rest := Reverse(Ordered(f));
    BehindSeven(salt, Get(f, Status), FIVE_EMPTY, rest);
    assert forall k :: 7 <= k < 18 ==> ResponseOrdered(f, salt)[k] == rest[k - 7];
  }

  lemma ReversedAt(f: Fields)
    ensures var r := Reverse(Ordered(f));
            && |r| == 11 && (forall i :: 1 <= i <= 5 ==> r[5 - i] == Get(f, Udf(i)))
            && r[5] == Get(f, Email) && r[6] == Get(f, FirstName) && r[7] == Get(f, ProductInfo)
            && r[8] == Get(f, Amount) && r[9] == Get(f, TxnId) && r[10] == Get(f, Key)
  {
    OrderedAt(f);
  }

  lemma BehindSeven(a: string, b: string, five: seq<string>, rest: seq<string>)
    requires |five| == 5
    ensures var parts := [a, b] + five + rest;
            && |parts| == 7 + |rest| && parts[0] == a && parts[1] == b
            && (forall k :: 2 <= k <= 6 ==> parts[k] == five[k - 2])
            && (forall k :: 7 <= k < |parts| ==> parts[k] == rest[k - 7])
  {
  }

  /** And its string, split: just those, behind the additional charge where there is one. */
  lemma ReplyPositions(f: Fields, salt: string)
    requires NoPipeIn(f, salt) && PipeFree(Extra(f))
    ensures var parts := Split(ResponseHashString(f, salt)); var at := if Extra(f) == "" then 0 else 1;
            && |parts| == 18 + at && (at == 1 ==> parts[0] == Extra(f))
            && parts[at] == salt && parts[at + 1] == Get(f, Status)
            && (forall k :: at + 2 <= k <= at + 6 ==> parts[k] == "")
            && (forall i :: 1 <= i <= 5 ==> parts[at + 12 - i] == Get(f, Udf(i)))
            && parts[at + 12] == Get(f, Email) && parts[at + 13] == Get(f, FirstName)
            && parts[at + 14] == Get(f, ProductInfo) && parts[at + 15] == Get(f, Amount)
            && parts[at + 16] == Get(f, TxnId) && parts[at + 17] == Get(f, Key)
  {
    OrderedClean(f, salt);
    ResponseSplits(f, salt);
    ReplyOrderedAt(f, salt);
  }

  // ---------------------------------------------------------------- text as the code normalises it

  /** The characters of the ASCII range that Python's strip removes. */
  predicate IsSpace(c: char) {
    c == ' ' || '\t' <= c <= '\r' || '\U{1c}' <= c <= '\U{1f}'
  }

  function StripLeft(s: string): string {
    if s != [] && IsSpace(s[0]) then StripLeft(s[1..]) else s
  }

  function StripRight(s: string): string {
    if s != [] && IsSpace(s[|s| - 1]) then StripRight(s[..|s| - 1]) else s
  }

  function Strip(s: string): string {
    StripRight(StripLeft(s))
  }

  function LowerChar(c: char): char {
    if 'A' <= c <= 'Z' then ((c as int) - ('A' as int) + ('a' as int)) as char else c
  }

  function Lower(s: string): string {
    seq(|s|, i requires 0 <= i < |s| => LowerChar(s[i]))
  }

  function UpperChar(c: char): char {
    if 'a' <= c <= 'z' then ((c as int) - ('a' as int) + ('A' as int)) as char else c
  }

  function Upper(s: string): string {
    seq(|s|, i requires 0 <= i < |s| => UpperChar(s[i]))
  }

  /** Letters of one case and the other, code by code; no other character changes. */
  lemma CaseOfLetters(c: char)
    ensures if 65 <= c as int <= 90 then LowerChar(c) as int == c as int + 32 else LowerChar(c) == c
    ensures if 97 <= c as int <= 122 then UpperChar(c) as int == c as int - 32 else UpperChar(c) == c
  {
  }

  lemma WhiteSpace(c: char)
    ensures IsSpace(c) <==>
            c in {' ', '\t', '\n', '\U{b}', '\U{c}', '\r', '\U{1c}', '\U{1d}', '\U{1e}', '\U{1f}'}
  {
  }

  /** Stripping takes white space off both ends and nothing else. */
  lemma {:induction false} LeftStripped(s: string) returns (u: string)
    ensures s == u + StripLeft(s) && AllSpace(u)
    ensures StripLeft(s) != "" ==> !IsSpace(StripLeft(s)[0])
    decreases |s|
  {
    if s != [] && IsSpace(s[0]) {
      var v := LeftStripped(s[1..]);
      u := [s[0]] + v;
    } else {
      u := "";
    }
  }

  lemma {:induction false} RightStripped(s: string) returns (u: string)
    ensures s == StripRight(s) + u && AllSpace(u)
    ensures StripRight(s) != "" ==> !IsSpace(StripRight(s)[|StripRight(s)| - 1])
    decreases |s|
  {
    if s != [] && IsSpace(s[|s| - 1]) {
      var init, last := s[..|s| - 1], s[|s| - 1];
      var v := RightStripped(init);
      u := v + [last];
      assert s == init + [last];
      assert StripRight(init) + v + [last] == StripRight(init) + (v + [last]);
    } else {
      u := "";
      assert s == s + "";
    }
  }

  ghost predicate AllSpace(s: string) {
    forall i :: 0 <= i < |s| ==>
      s[i] in {' ', '\t', '\n', '\U{b}', '\U{c}', '\r', '\U{1c}', '\U{1d}', '\U{1e}', '\U{1f}'}
  }

  lemma Stripped(s: string) returns (u: string, v: string)
    ensures s == u + Strip(s) + v && AllSpace(u) && AllSpace(v)
    ensures Strip(s) != "" ==> !IsSpace(Strip(s)[0]) && !IsSpace(Strip(s)[|Strip(s)| - 1])
  {
    u := LeftStripped(s);
    v := RightStripped(StripLeft(s));
    if Strip(s) != "" {
      assert StripLeft(s)[0] == Strip(s)[0];
    }
  }

  // ---------------------------------------------------------------- signing and checking

  /** A digest is written in lower-case hexadecimal, so the code's normalisation leaves it as it is. */
  ghost predicate IsDigest(digest: string -> string) {
    forall s :: IsHex(digest(s))
  }

  predicate IsHex(s: string) {
    s != "" && forall i :: 0 <= i < |s| ==> '0' <= s[i] <= '9' || 'a' <= s[i] <= 'f'
  }

  lemma HexDigits(c: char)
    ensures IsHex([c]) <==>
            c in {'0', '1', '2', '3', '4', '5', '6', '7', '8', '9', 'a', 'b', 'c', 'd', 'e', 'f'}
  {
    assert [c][0] == c;
  }

  lemma HexIsNormal(s: string)
    requires IsHex(s)
    ensures Lower(Strip(s)) == s
  {
    assert !IsSpace(s[0]) && !IsSpace(s[|s| - 1]);
    assert Strip(s) == s;
    assert forall i :: 0 <= i < |s| ==> Lower(s)[i] == s[i];
  }

  function Provided(payload: Fields): string {
    Lower(Strip(Get(payload, Hash)))
  }

  predicate VerifyResponse(digest: string -> string, payload: Fields, salt: string) {
    var provided := Provided(payload);
    provided != "" && salt != "" && digest(ResponseHashString(payload, salt)) == provided
  }

  /** A reply signed with PayU's layout. */
  function SignedReply(digest: string -> string, reply: Fields, salt: string): Fields {
    reply[Hash := digest(ResponseHashString(reply, salt))]
  }

  lemma ValuesAgree(f: Fields, g: Fields, names: seq<Name>)
    requires forall i :: 0 <= i < |names| ==> Get(f, names[i]) == Get(g, names[i])
    ensures Values(f, names) == Values(g, names)
  {
  }

  lemma HashFieldIsNotHashed(f: Fields, h: string, salt: string)
    ensures ResponseHashString(f[Hash := h], salt) == ResponseHashString(f, salt)
    ensures RequestHashString(f[Hash := h], salt) == RequestHashString(f, salt)
  {
    var g := f[Hash := h];
    ValuesAgree(g, f, HEAD);
    ValuesAgree(g, f, UDF_FIELDS);
    ValuesAgree(g, f, Reverse(UDF_FIELDS));
    ValuesAgree(g, f, TAIL);
  }

  /** Every reply signed with that layout is accepted, with or without an additional charge. */
  lemma GenuineReplyVerifies(digest: string -> string, reply: Fields, salt: string)
    requires IsDigest(digest) && salt != ""
    ensures VerifyResponse(digest, SignedReply(digest, reply, salt), salt)
  {
    var h := digest(ResponseHashString(reply, salt));
    HashFieldIsNotHashed(reply, h, salt);
    HexIsNormal(h);
  }

  /** Nothing is accepted without a salt, and no reply without a hash or with another than its own string's. */
  lemma UnsignedReplyIsRefused(digest: string -> string, reply: Fields, salt: string, h: string)
    requires IsDigest(digest) && IsHex(h)
    ensures !VerifyResponse(digest, reply, "") && !VerifyResponse(digest, reply - {Hash}, salt)
    ensures salt != "" ==>
              (VerifyResponse(digest, reply[Hash := h], salt) <==> h == digest(ResponseHashString(reply, salt)))
  {
    HashFieldIsNotHashed(reply, h, salt);
    HexIsNormal(h);
  }

  /** Whatever reply is accepted under the hash of a pipe-free one agrees with it on every signed field, unless
      the digest itself takes two different strings to one value, or the charge of the first is the salt. */
  lemma SameHashSameReply(digest: string -> string, f: Fields, g: Fields, salt: string)
    requires VerifyResponse(digest, f, salt) && VerifyResponse(digest, g, salt)
    requires CleanReply(f, salt) && ChargeIsNot(f, salt) && Provided(f) == Provided(g)
    ensures SignedPart(f) == SignedPart(g)
            || (&& ResponseHashString(f, salt) != ResponseHashString(g, salt)
                && digest(ResponseHashString(f, salt)) == digest(ResponseHashString(g, salt)))
  {
    ResponseStringIffSigned(f, salt, g, salt);
  }

  // ---------------------------------------------------------------- the amount

  /** Hundredths, a tie going to the even one. */
  function Cents(amount: real): (cents: nat)
    requires 0.0 <= amount
  {
    var low := (amount * 100.0).Floor;
    var over := amount * 100.0 - low as real;
    if over > 0.5 || (over == 0.5 && low % 2 == 1) then low + 1 else low
  }

  /** An amount halfway between two hundredths is posted as the even one. */
  lemma TiesGoToEven(amount: real)
    requires 0.0 <= amount && amount * 100.0 - (amount * 100.0).Floor as real == 0.5
    ensures Cents(amount) % 2 == 0
  {
  }

  function FormatAmount(amount: real): string {
    if amount < 0.0 then "-" + FormatCents(Cents(-amount)) else FormatCents(Cents(amount))
  }

  function FormatCents(cents: nat): string {
    Decimal(cents / 100) + "." + [Digit(cents % 100 / 10), Digit(cents % 100 % 10)]
  }

  /** The hundredths a text with two places stands for. */
  function ReadCents(s: string): nat
    requires |s| >= 3
  {
    100 * Parse(s[..|s| - 3]) + 10 * ValueOf(s[|s| - 2]) + ValueOf(s[|s| - 1])
  }

  /** The same with a sign in front or none. */
  function ReadAmount(s: string): int
    requires |s| >= 4
  {
    if s[0] == '-' then 0 - ReadCents(s[1..]) else ReadCents(s)
  }

  /** Read back, the posted amount is the nearest number of hundredths, and it always has two places. */
  lemma AmountReadsBack(amount: real)
    ensures var s := FormatAmount(amount);
            && |s| >= 4 && s[|s| - 3] == '.' && PipeFree(s)
            && (s[0] == '-' <==> amount < 0.0)
            && ReadAmount(s) == Hundredths(amount)
            && -0.5 <= amount * 100.0 - ReadAmount(s) as real <= 0.5
  {
    var size := if amount < 0.0 then -amount else amount;
    CentsReadBack(Cents(size));
    NearestCents(size);
    var s := FormatAmount(amount);
    if amount < 0.0 {
      assert s[1..] == FormatCents(Cents(size));
    }
  }

  lemma NearestCents(size: real)
    requires 0.0 <= size
    ensures -0.5 <= size * 100.0 - Cents(size) as real <= 0.5
  {
    var low := (size * 100.0).Floor;
    assert Cents(size) == low || Cents(size) == low + 1;
  }

  function Hundredths(amount: real): int {
    if amount < 0.0 then 0 - Cents(-amount) else Cents(amount)
  }

  lemma CentsReadBack(c: nat)
    ensures var s := FormatCents(c);
            |s| >= 4 && s[|s| - 3] == '.' && s[0] != '-' && PipeFree(s) && ReadCents(s) == c
  {
    var s := FormatCents(c);
    var whole, tens, ones := Decimal(c / 100), Digit(c % 100 / 10), Digit(c % 100 % 10);
    assert s == whole + ['.', tens, ones];
    assert s[..|s| - 3] == whole && s[|s| - 2] == tens && s[|s| - 1] == ones;
    ParseDecimal(c / 100);
    ValueOfDigit(c % 100 / 10);
    ValueOfDigit(c % 100 % 10);
    assert '|' !in DIGITS && '-' !in DIGITS;
  }

  /** Amounts are posted alike exactly when they round to the same hundredth and have the same sign: an amount
      below zero keeps its sign even when it rounds to nothing. */
  lemma AmountsPostedAlike(a: real, b: real)
    ensures FormatAmount(a) == FormatAmount(b) <==> Hundredths(a) == Hundredths(b) && (a < 0.0 <==> b < 0.0)
  {
    if FormatAmount(a) == FormatAmount(b) {
      AmountReadsBack(a);
      AmountReadsBack(b);
    }
  }

  // ---------------------------------------------------------------- the checkout form

  const TEST_ACTION_URL := "https://test.payu.in/_payment"
  const LIVE_ACTION_URL := "https://secure.payu.in/_payment"

  datatype Order = Order(
    txnid: string, amount: real, productInfo: string, firstName: string, email: string, phone: string,
    successUrl: string, failureUrl: string, currency: string, udf: Fields)

  datatype Checkout = Checkout(action: string, fields: Fields) | MissingCredentials

  function ActionUrl(mode: string): string {
    if Lower(if mode == "" then "test" else mode) == "live" then LIVE_ACTION_URL else TEST_ACTION_URL
  }

  /** What the form posts of an order, before the user-defined fields and the signature. */
  function OrderFields(merchantKey: string, o: Order): (fields: Fields)
    ensures Status !in fields && AdditionalCharges !in fields
  {
    map[
      Key := merchantKey,
      TxnId := o.txnid,
      Amount := FormatAmount(o.amount),
      ProductInfo := o.productInfo,
      FirstName := Strip(if o.firstName == "" then "Student" else o.firstName),
      Email := Strip(o.email),
      Phone := Strip(o.phone),
      SuccessUrl := o.successUrl,
      FailureUrl := o.failureUrl,
      ServiceProvider := "payu_paisa",
      Currency := Upper(if o.currency == "" then "INR" else o.currency)
    ]
  }

  /** The loop that adds the five user-defined fields, absent ones as empty text. */
  method AddUdf(before: Fields, udf: Fields) returns (fields: Fields)
    ensures forall name: Name :: !name.Udf? ==>
              (name in fields <==> name in before) && Get(fields, name) == Get(before, name)
    ensures forall i :: 1 <= i <= 5 ==> Udf(i) in fields && Get(fields, Udf(i)) == Get(udf, Udf(i))
  {
    fields := before;
    for i := 0 to |UDF_FIELDS|
      invariant forall name: Name :: !name.Udf? ==>
                  (name in fields <==> name in before) && Get(fields, name) == Get(before, name)
      invariant forall j :: 1 <= j <= i ==> Udf(j) in fields && Get(fields, Udf(j)) == Get(udf, Udf(j))
    {
      assert forall j :: 0 <= j < i ==> UDF_FIELDS[j] == Udf(j + 1);
      fields := fields[UDF_FIELDS[i] := Get(udf, UDF_FIELDS[i])];
    }
  }

  /** What is signed is what is posted, user-defined fields included; the currency is posted unsigned. */
  ghost predicate SignedForm(digest: string -> string, fields: Fields, order: Fields, udf: Fields, salt: string) {
    && Get(fields, Hash) == digest(RequestHashString(fields, salt))
    && Values(fields, HEAD) == Values(order, HEAD)
    && Values(fields, UDF_FIELDS) == Values(udf, UDF_FIELDS)
    && Get(fields, Currency) == Get(order, Currency)
    && Status !in fields && AdditionalCharges !in fields
  }

  lemma FormIsSigned(digest: string -> string, filled: Fields, order: Fields, udf: Fields, salt: string)
    requires forall name: Name :: !name.Udf? ==>
               (name in filled <==> name in order) && Get(filled, name) == Get(order, name)
    requires forall i :: 1 <= i <= 5 ==> Get(filled, Udf(i)) == Get(udf, Udf(i))
    requires Status !in order && AdditionalCharges !in order
    ensures SignedForm(digest, filled[Hash := digest(RequestHashString(filled, salt))], order, udf, salt)
  {
    var fields := filled[Hash := digest(RequestHashString(filled, salt))];
    HashFieldIsNotHashed(filled, digest(RequestHashString(filled, salt)), salt);
    ValuesAgree(fields, order, HEAD);
    ValuesAgree(fields, udf, UDF_FIELDS);
  }

  /** The signature step: the last field set, over all the others. */
  method Sign(digest: string -> string, filled: Fields, ghost order: Fields, ghost udf: Fields, salt: string)
    returns (fields: Fields)
    requires forall name: Name :: !name.Udf? ==>
               (name in filled <==> name in order) && Get(filled, name) == Get(order, name)
    requires forall i :: 1 <= i <= 5 ==> Get(filled, Udf(i)) == Get(udf, Udf(i))
    requires Status !in order && AdditionalCharges !in order
    ensures SignedForm(digest, fields, order, udf, salt)
    ensures forall name: Name :: name != Hash ==> Get(fields, name) == Get(filled, name)
  {
    FormIsSigned(digest, filled, order, udf, salt);
    fields := filled[Hash := digest(RequestHashString(filled, salt))];
  }

  /** Each posted field against the order's own. */
  ghost predicate PostsOrder(fields: Fields, merchantKey: string, o: Order) {
    PostsOwn(fields, merchantKey, o) && forall i :: 1 <= i <= 5 ==> Get(fields, Udf(i)) == Get(o.udf, Udf(i))
  }

  ghost predicate PostsOwn(fields: Fields, merchantKey: string, o: Order) {
    && Get(fields, Key) == merchantKey && Get(fields, TxnId) == o.txnid
    && Get(fields, Amount) == FormatAmount(o.amount) && Get(fields, ProductInfo) == o.productInfo
    && Get(fields, FirstName) == (if o.firstName == "" then "Student" else Strip(o.firstName))
    && Get(fields, Email) == Strip(o.email) && Get(fields, Phone) == Strip(o.phone)
    && Get(fields, SuccessUrl) == o.successUrl && Get(fields, FailureUrl) == o.failureUrl
    && Get(fields, ServiceProvider) == "payu_paisa"
    && Get(fields, Currency) == (if o.currency == "" then "INR" else Upper(o.currency))
  }

  /** "live" in any case of letters. */
  ghost predicate IsLive(mode: string) {
    && |mode| == 4
    && mode[0] in {'l', 'L'} && mode[1] in {'i', 'I'} && mode[2] in {'v', 'V'} && mode[3] in {'e', 'E'}
  }

  lemma LiveIsLive(mode: string)
    ensures ActionUrl(mode)
            == if IsLive(mode) then "https://secure.payu.in/_payment" else "https://test.payu.in/_payment"
  {
    var low := Lower(mode);
    if IsLive(mode) {
      assert low == "live";
    }
    if low == "live" {
      assert low[0] == 'l' && low[1] == 'i' && low[2] == 'v' && low[3] == 'e';
    }
    assert Lower("test")[0] == 't';
  }

  lemma DefaultsAsTheyStand()
    ensures Strip("Student") == "Student" && Upper("INR") == "INR"
  {
    assert "Student"[0] == 'S' && "Student"[6] == 't';
    assert forall i :: 0 <= i < 3 ==> Upper("INR")[i] == "INR"[i];
  }

  lemma OrderFieldsPost(merchantKey: string, o: Order)
    ensures PostsOwn(OrderFields(merchantKey, o), merchantKey, o)
  {
    DefaultsAsTheyStand();
  }

  lemma PostsAlike(f: Fields, g: Fields, merchantKey: string, o: Order)
    requires PostsOwn(g, merchantKey, o)
    requires forall name: Name :: name != Hash && !name.Udf? ==> Get(f, name) == Get(g, name)
    ensures PostsOwn(f, merchantKey, o)
  {
  }

  lemma OrderIsPosted(filled: Fields, fields: Fields, merchantKey: string, o: Order)
    requires forall name: Name :: !name.Udf? ==> Get(filled, name) == Get(OrderFields(merchantKey, o), name)
    requires forall i :: 1 <= i <= 5 ==> Get(filled, Udf(i)) == Get(o.udf, Udf(i))
    requires forall name: Name :: name != Hash ==> Get(fields, name) == Get(filled, name)
    ensures PostsOrder(fields, merchantKey, o)
  {
    OrderFieldsPost(merchantKey, o);
    PostsAlike(filled, OrderFields(merchantKey, o), merchantKey, o);
    PostsAlike(fields, filled, merchantKey, o);
  }

  /** The form is filled field by field and signed. */
  method BuildCheckout(digest: string -> string, merchantKey: string, salt: string, mode: string, o: Order)
    returns (c: Checkout)
    ensures c.MissingCredentials? <==> merchantKey == "" || salt == ""
    ensures c.Checkout? ==>
      c.action == ActionUrl(mode) && SignedForm(digest, c.fields, OrderFields(merchantKey, o), o.udf, salt)
    ensures c.Checkout? ==> PostsOrder(c.fields, merchantKey, o)
    ensures c.Checkout? ==>
      c.action == if IsLive(mode) then "https://secure.payu.in/_payment" else "https://test.payu.in/_payment"
  {
    if merchantKey == "" || salt == "" {
      return MissingCredentials;
    }
    LiveIsLive(mode);
    var filled := AddUdf(OrderFields(merchantKey, o), o.udf);
    var fields := Sign(digest, filled, OrderFields(merchantKey, o), o.udf, salt);
    OrderIsPosted(filled, fields, merchantKey, o);
    return Checkout(ActionUrl(mode), fields);
  }

  /** A reply that echoes a checkout form, with a status put in, signs the form's own values backwards. */
  lemma ReplyEchoesForm(form: Fields, status: string, salt: string)
    requires AdditionalCharges !in form
    ensures ResponseOrdered(form[Status := status], salt)
            == [salt] + [status] + Reverse(RequestOrdered(form, salt))[1..]
    ensures Extra(form[Status := status]) == ""
  {
    var reply := form[Status := status];
    ResponseIsReversedRequest(reply, salt);
    ValuesAgree(reply, form, HEAD);
    ValuesAgree(reply, form, UDF_FIELDS);
  }
}
