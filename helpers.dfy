/** The shared helpers: the unique visit-code generator (a retry loop over
    random draws), the `login_required` gate and the "N/A" case of the
    Manila-time formatter. */
module Helpers {
  import opened Seqs
  import opened Records
  import opened Database

  /** `string.ascii_uppercase + string.digits`. */
  const CodeAlphabet: string := "ABCDEFGHIJKLMNOPQRSTUVWXYZ0123456789"

  /** The default `length` of `generate_unique_secure_code`. */
  const DefaultCodeLength: nat := 8

  predicate IsCodeChar(c: char)
  {
    ('A' <= c <= 'Z') || ('0' <= c <= '9')
  }

  /** The alphabet holds exactly the upper-case ASCII letters and the digits. */
  lemma CodeAlphabetChars()
    ensures |CodeAlphabet| == 36
    ensures forall i :: 0 <= i < |CodeAlphabet| ==> IsCodeChar(CodeAlphabet[i])
    ensures forall c :: IsCodeChar(c) ==> c in CodeAlphabet
  {
    forall c | IsCodeChar(c) ensures c in CodeAlphabet {
      if 'A' <= c <= 'Z' {
        assert CodeAlphabet[c as int - 'A' as int] == c;
      } else {
        assert CodeAlphabet[26 + c as int - '0' as int] == c;
      }
    }
  }

  /** One random draw: the alphabet positions `secrets.choice` picks, one per character. */
  predicate ValidDraw(draw: seq<nat>)
  {
    forall i :: 0 <= i < |draw| ==> draw[i] < |CodeAlphabet|
  }

  /** The code a draw spells. */
  function Spell(draw: seq<nat>): (code: string)
    requires ValidDraw(draw)
    ensures |code| == |draw|
    ensures forall i :: 0 <= i < |code| ==> IsCodeChar(code[i])
  {
    CodeAlphabetChars();
    seq(|draw|, i requires 0 <= i < |draw| => CodeAlphabet[draw[i]])
  }

  /** `Request.query.filter_by(unique_code=code).first()` finds something. */
  predicate CodeTaken(requests: seq<Request>, code: string)
  {
    FindFirst(requests, (r: Request) => r.uniqueCode == code).Some?
  }

  lemma CodeTakenIsCodes(requests: seq<Request>, code: string)
    ensures CodeTaken(requests, code) <==> code in Codes(requests)
  {
    if code in Codes(requests) {
      var r :| r in requests && r.uniqueCode == code;
      var i :| 0 <= i < |requests| && requests[i] == r;
    }
  }

  /** The code the retry loop settles on: the first drawn code no request uses yet. None
      when every supplied draw collides (the source would keep drawing). */
  function FirstFreshCode(requests: seq<Request>, draws: seq<seq<nat>>): Option<string>
    requires forall k :: 0 <= k < |draws| ==> ValidDraw(draws[k])
  {
    if |draws| == 0 then None
    else if !CodeTaken(requests, Spell(draws[0])) then Some(Spell(draws[0]))
    else FirstFreshCode(requests, draws[1..])
  }

  /** The retry loop yields a code of the requested length, made of upper-case letters and
      digits, used by no request; it gives up only when every draw collides. */
  lemma {:induction false} FirstFreshCodeProperties(requests: seq<Request>, draws: seq<seq<nat>>, length: nat)
    requires forall k :: 0 <= k < |draws| ==> ValidDraw(draws[k]) && |draws[k]| == length
    ensures var r := FirstFreshCode(requests, draws);
      && (r.Some? ==> |r.value| == length && r.value !in Codes(requests))
      && (r.Some? ==> forall i :: 0 <= i < |r.value| ==> IsCodeChar(r.value[i]))
      && (r.None? <==> forall k :: 0 <= k < |draws| ==> Spell(draws[k]) in Codes(requests))
  {
    if |draws| > 0 {
      CodeTakenIsCodes(requests, Spell(draws[0]));
      FirstFreshCodeProperties(requests, draws[1..], length);
      assert forall k :: 1 <= k < |draws| ==> draws[k] == draws[1..][k - 1];
    }
  }

  /** `''.join(secrets.choice(characters) for _ in range(length))` for one draw. */
  method SpellCode(draw: seq<nat>) returns (code: string)
    requires ValidDraw(draw)
    ensures code == Spell(draw)
  {
    code := "";
    for i := 0 to |draw|
      invariant |code| == i
      invariant forall k :: 0 <= k < i ==> code[k] == CodeAlphabet[draw[k]]
    {
      code := code + [CodeAlphabet[draw[i]]];
    }
  }

  /** `generate_unique_secure_code(length)`: draws until a code is free. The random source
      is the sequence `draws`; running out of draws yields None. */
  method GenerateUniqueSecureCode(requests: seq<Request>, draws: seq<seq<nat>>, length: nat) returns (code: Option<string>)
    requires forall k :: 0 <= k < |draws| ==> ValidDraw(draws[k]) && |draws[k]| == length
    ensures code == FirstFreshCode(requests, draws)
    ensures code.Some? ==> |code.value| == length && code.value !in Codes(requests)
  {
    FirstFreshCodeProperties(requests, draws, length);
    var attempt := 0;
    while attempt < |draws|
      invariant 0 <= attempt <= |draws|
      invariant FirstFreshCode(requests, draws) == FirstFreshCode(requests, draws[attempt..])
    {
      assert draws[attempt..][1..] == draws[attempt + 1..];
      var candidate := SpellCode(draws[attempt]);
      if FindFirst(requests, (r: Request) => r.uniqueCode == candidate).None? {
        return Some(candidate);
      }
      attempt := attempt + 1;
    }
    return None;
  }

  /** What a view guarded by `login_required` produces. */
  datatype Guarded<T> = LoginRedirect(message: string) | Allowed(response: T)

  /** `login_required`: the view runs only when the session holds `user_id`. */
  function LoginRequired<T>(sessionKeys: set<string>, view: () -> T): (r: Guarded<T>)
    ensures r.Allowed? <==> "user_id" in sessionKeys
    ensures r.Allowed? ==> r.response == view()
    ensures r.LoginRedirect? ==> r.message == "Please log in to access this page."
  {
    if "user_id" !in sessionKeys then LoginRedirect("Please log in to access this page.")
    else Allowed(view())
  }

  /** `convert_to_ph_time`: "N/A" for a missing time, else the formatted time. */
  function ConvertToPhTime<D>(dt: Option<D>, strftime: D -> string): (s: string)
    ensures dt.None? ==> s == "N/A"
    ensures dt.Some? ==> s == strftime(dt.value)
  {
    match dt
    case None => "N/A"
    case Some(t) => strftime(t)
  }
}
