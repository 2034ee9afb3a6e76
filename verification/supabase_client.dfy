/** The browser-side Supabase client of `lib/supabase/client.ts`: the guard
    on its two environment variables, and the cookie adapter it installs,
    which reads every cookie out of `document.cookie` (`getAll`) and writes
    cookies back one assignment at a time (`setAll`). */
module SupabaseClient {
  import opened Wrappers
  import Text
  import Uri

  datatype Config = Config(url: string, anonKey: string)

  const MissingEnv := "Missing Supabase environment variables"

  /** A variable that is unset or empty fails the guard. */
  predicate Present(v: Option<string>)
  {
    v.Some? && v.value != ""
  }

  /** `createSupabaseClient`: both variables must be set and non-empty. */
  function CreateClient(url: Option<string>, anonKey: Option<string>): (r: Result<Config, string>)
    ensures r.Ok? <==> Present(url) && Present(anonKey)
    ensures r.Ok? ==> r.value.url == url.value && r.value.anonKey == anonKey.value
    ensures r.Err? ==> r.error == MissingEnv
  {
    if !Present(url) || !Present(anonKey) then Err(MissingEnv)
    else Ok(Config(url.value, anonKey.value))
  }

  datatype Cookie = Cookie(name: string, value: string)

  /** One `name=value` piece of `document.cookie`: the name is the text
      before the first `=`, the value is every later piece rejoined with `=`
      and then URI-decoded (which may throw). */
  function ParseCookie(piece: string): Option<Cookie>
  {
    var parts := Text.Split(piece, "=");
    match Uri.Decode(Text.Join(parts[1..], "="))
    case None => None
    case Some(v) => Some(Cookie(parts[0], v))
  }

  /** The `map` over the pieces: it throws at the first piece that throws. */
  function ParseAll(pieces: seq<string>): (r: Option<seq<Cookie>>)
    ensures r.Some? <==> forall i :: 0 <= i < |pieces| ==> ParseCookie(pieces[i]).Some?
    ensures r.Some? ==> |r.value| == |pieces|
    ensures r.Some? ==> forall i :: 0 <= i < |pieces| ==> r.value[i] == ParseCookie(pieces[i]).value
  {
    if pieces == [] then Some([])
    else
      match ParseCookie(pieces[0])
      case None => None
      case Some(c) =>
        match ParseAll(pieces[1..])
        case None => None
        case Some(cs) => Some([c] + cs)
  }

  /** `getAll`: split the cookie header on "; " and parse each piece. */
  function GetAll(header: string): Option<seq<Cookie>>
  {
    ParseAll(Text.Split(header, "; "))
  }

  /** The name is what precedes the first `=`, and the text the value is
      decoded from is everything after it, `=` characters included; a piece
      with no `=` is all name and has an empty value. */
  lemma CookieNameValue(piece: string)
    ensures var parts := Text.Split(piece, "=");
      match Text.IndexOf(piece, "=")
      case Some(i) => parts[0] == piece[..i] && Text.Join(parts[1..], "=") == piece[i + 1..]
      case None => parts[0] == piece && Text.Join(parts[1..], "=") == ""
  {
    match Text.IndexOf(piece, "=")
    case Some(i) =>
      Text.JoinSplit(piece[i + 1..], "=");
    case None =>
  }

  /** An empty `document.cookie` reads as one cookie with an empty name and
      an empty value. */
  lemma GetAllEmpty()
    ensures GetAll("") == Some([Cookie("", "")])
  {
    Text.SplitNone("", "; ");
    Text.SplitNone("", "=");
    assert Text.Split("", "=")[1..] == [];
    assert Text.Join([], "=") == "";
    assert Uri.Decode("") == Some("");
    assert ParseCookie("") == Some(Cookie("", ""));
    assert [""][1..] == [];
    assert ParseAll([]) == Some([]);
    assert [Cookie("", "")] + [] == [Cookie("", "")];
    assert ParseAll([""]) == Some([Cookie("", "")]);
  }

  /** The header a browser presents for a list of cookies written by
      `setAll`: each `name=encoded value`, joined with "; ". */
  function Header(cs: seq<Cookie>): string
  {
    Text.Join(Pairs(cs), "; ")
  }

  function Pairs(cs: seq<Cookie>): (r: seq<string>)
    ensures |r| == |cs|
    ensures forall i :: 0 <= i < |cs| ==> r[i] == cs[i].name + "=" + Uri.Encode(cs[i].value)
  {
    if cs == [] then [] else [cs[0].name + "=" + Uri.Encode(cs[0].value)] + Pairs(cs[1..])
  }

  /** A name without `=` or `;`. */
  predicate PlainName(name: string)
  {
    '=' !in name && ';' !in name
  }

  /** Reading back one written cookie. */
  lemma ParseWritten(c: Cookie)
    requires PlainName(c.name)
    ensures ParseCookie(c.name + "=" + Uri.Encode(c.value)) == Some(c)
  {
    var enc := Uri.Encode(c.value);
    Uri.EncodeAvoids(c.value, '=');
    Text.SplitAtFirst(c.name, "=", enc);
    Text.SplitNone(enc, "=");
    var parts := Text.Split(c.name + "=" + enc, "=");
    assert parts == [c.name, enc];
    assert parts[1..] == [enc];
    Uri.EncodeDecode(c.value);
  }

  /** `getAll` gives back every cookie, in order, with its original value,
      for a non-empty list of cookies with plain names. */
  lemma GetAllHeader(cs: seq<Cookie>)
    requires |cs| >= 1
    requires forall i :: 0 <= i < |cs| ==> PlainName(cs[i].name)
    ensures GetAll(Header(cs)) == Some(cs)
  {
    var ps := Pairs(cs);
    forall k | 0 <= k < |ps|
      ensures ';' !in ps[k]
    {
      Uri.EncodeAvoids(cs[k].value, ';');
    }
    Text.SplitJoin(ps, "; ");
    forall k | 0 <= k < |ps|
      ensures ParseCookie(ps[k]) == Some(cs[k])
    {
      ParseWritten(cs[k]);
    }
    ParseAllSome(ps, cs);
  }

  lemma ParseAllSome(ps: seq<string>, cs: seq<Cookie>)
    requires |ps| == |cs|
    requires forall k :: 0 <= k < |ps| ==> ParseCookie(ps[k]) == Some(cs[k])
    ensures ParseAll(ps) == Some(cs)
  {
    assert ParseAll(ps).Some?;
    assert ParseAll(ps).value == cs;
  }

  /** The options a server-side caller may attach to a cookie; an absent
      options object behaves as all fields absent. */
  datatype CookieOptions = CookieOptions(
    path: Option<string>,
    maxAge: Option<int>,
    domain: Option<string>,
    sameSite: Option<string>,
    secure: bool)

  /** A number option is truthy unless it is missing or zero. */
  predicate Given(v: Option<int>)
  {
    v.Some? && v.value != 0
  }

  /** The five attribute slots of the cookie string, before empty ones are
      filtered out. */
  function AttributeSlots(o: CookieOptions): seq<string>
  {
    [ if Present(o.path) then "path=" + o.path.value else "path=/",
      if Given(o.maxAge) then "max-age=" + Text.IntToString(o.maxAge.value) else "",
      if Present(o.domain) then "domain=" + o.domain.value else "",
      if Present(o.sameSite) then "samesite=" + o.sameSite.value else "samesite=lax",
      if o.secure then "secure" else "" ]
  }

  /** `.filter(Boolean)` on a list of strings. */
  function NonEmpty(xs: seq<string>): (r: seq<string>)
    ensures forall i :: 0 <= i < |r| ==> r[i] != ""
    ensures forall x :: x in xs && x != "" ==> x in r
    ensures forall x :: x in r ==> x in xs
    ensures |r| <= |xs|
  {
    if xs == [] then []
    else if xs[0] == "" then NonEmpty(xs[1..])
    else [xs[0]] + NonEmpty(xs[1..])
  }

  /** The string `setAll` assigns to `document.cookie` for one cookie. */
  function CookieString(c: Cookie, o: CookieOptions): string
  {
    Text.Join(NonEmpty([c.name + "=" + Uri.Encode(c.value)] + AttributeSlots(o)), "; ")
  }

  /** The assigned string starts with `name=value` and goes on with the
      attributes whose slots are not empty. */
  lemma CookieStringFirst(c: Cookie, o: CookieOptions)
    ensures CookieString(c, o)
         == Text.Join([c.name + "=" + Uri.Encode(c.value)] + NonEmpty(AttributeSlots(o)), "; ")
  {
    var first := c.name + "=" + Uri.Encode(c.value);
    var slots := AttributeSlots(o);
    assert first != "" by { assert first[|c.name|] == '='; }
    assert ([first] + slots)[1..] == slots;
  }

  /** The path (default `/`) and the same-site policy (default `lax`) are
      always among the attributes. */
  lemma CookieDefaults(o: CookieOptions)
    ensures !Present(o.path) ==> "path=/" in NonEmpty(AttributeSlots(o))
    ensures Present(o.path) ==> "path=" + o.path.value in NonEmpty(AttributeSlots(o))
    ensures !Present(o.sameSite) ==> "samesite=lax" in NonEmpty(AttributeSlots(o))
    ensures Present(o.sameSite) ==> "samesite=" + o.sameSite.value in NonEmpty(AttributeSlots(o))
  {
    var slots := AttributeSlots(o);
    assert slots[0] in slots && slots[0] != "";
    assert slots[3] in slots && slots[3] != "";
  }

  /** `max-age` appears exactly when `maxAge` is truthy, so 0 is dropped. */
  lemma CookieMaxAge(o: CookieOptions)
    ensures Given(o.maxAge) <==> exists a :: a in NonEmpty(AttributeSlots(o)) && Text.StartsWith(a, "max-age=")
  {
    var slots := AttributeSlots(o);
    if Given(o.maxAge) {
      var a := slots[1];
      assert a in slots && a != "";
      assert Text.StartsWith(a, "max-age=") by { assert a[..8] == "max-age="; }
    }
    forall a | a in NonEmpty(slots) && Text.StartsWith(a, "max-age=")
      ensures Given(o.maxAge)
    {
      MaxAgeOnlyFromOption(o, a);
    }
  }

  lemma MaxAgeOnlyFromOption(o: CookieOptions, a: string)
    requires a in NonEmpty(AttributeSlots(o)) && Text.StartsWith(a, "max-age=")
    ensures Given(o.maxAge)
  {
    SlotHeads(o);
    assert a[..8] == "max-age=";
    assert a[0] == 'm';
    assert a in AttributeSlots(o);
  }

  /** The first characters of the five slots, which tell them apart. */
  lemma SlotHeads(o: CookieOptions)
    ensures var s := AttributeSlots(o);
      && |s| == 5
      && s[0] != "" && s[0][0] == 'p'
      && (s[1] == "" || s[1][0] == 'm')
      && (s[2] == "" || s[2][0] == 'd')
      && |s[3]| > 1 && s[3][0] == 's' && s[3][1] == 'a'
      && (s[4] == "" || s[4] == "secure")
  {
  }

  /** `domain` appears exactly when the option is truthy. */
  lemma CookieDomain(o: CookieOptions)
    ensures Present(o.domain) <==> exists a :: a in NonEmpty(AttributeSlots(o)) && Text.StartsWith(a, "domain=")
  {
    if Present(o.domain) {
      DomainShown(o);
    }
    forall a | a in NonEmpty(AttributeSlots(o)) && Text.StartsWith(a, "domain=")
      ensures Present(o.domain)
    {
      DomainOnlyFromOption(o, a);
    }
  }

  lemma DomainShown(o: CookieOptions)
    requires Present(o.domain)
    ensures var a := AttributeSlots(o)[2]; a in NonEmpty(AttributeSlots(o)) && Text.StartsWith(a, "domain=")
  {
    var slots := AttributeSlots(o);
    var a := slots[2];
    assert a in slots && a != "";
    assert Text.StartsWith(a, "domain=") by { assert a[..7] == "domain="; }
  }

  lemma DomainOnlyFromOption(o: CookieOptions, a: string)
    requires a in NonEmpty(AttributeSlots(o)) && Text.StartsWith(a, "domain=")
    ensures Present(o.domain)
  {
    SlotHeads(o);
    assert a[..7] == "domain=";
    assert a[0] == 'd';
    assert a in AttributeSlots(o);
  }

  /** `secure` appears exactly when the option is set. */
  lemma CookieSecure(o: CookieOptions)
    ensures o.secure <==> "secure" in NonEmpty(AttributeSlots(o))
  {
    var slots := AttributeSlots(o);
    if o.secure {
      assert slots[4] in slots;
    }
    if "secure" in NonEmpty(slots) {
      SecureOnlyFromOption(o);
    }
  }

  lemma SecureOnlyFromOption(o: CookieOptions)
    requires "secure" in NonEmpty(AttributeSlots(o))
    ensures o.secure
  {
    SlotHeads(o);
    var x := "secure";
    assert x[0] == 's' && x[1] == 'e';
    assert x in AttributeSlots(o);
  }

  /** The strings `setAll` assigns for a list of cookies, in order. */
  function Assigned(cookies: seq<(Cookie, CookieOptions)>): (r: seq<string>)
    ensures |r| == |cookies|
    ensures forall i :: 0 <= i < |cookies| ==> r[i] == CookieString(cookies[i].0, cookies[i].1)
  {
    if cookies == [] then []
    else Assigned(cookies[..|cookies| - 1]) + [CookieString(cookies[|cookies| - 1].0, cookies[|cookies| - 1].1)]
  }

  /** The browser document, seen only through the strings assigned to
      `document.cookie`, in assignment order. */
  class Document {
    var cookieWrites: seq<string>

    constructor()
      ensures cookieWrites == []
    {
      cookieWrites := [];
    }

    /** `setAll`: one assignment per cookie, in the order given. */
    method SetAll(cookies: seq<(Cookie, CookieOptions)>)
      modifies this
      ensures |cookieWrites| == |old(cookieWrites)| + |cookies|
      ensures cookieWrites[..|old(cookieWrites)|] == old(cookieWrites)
      ensures forall i :: 0 <= i < |cookies| ==>
        cookieWrites[|old(cookieWrites)| + i] == CookieString(cookies[i].0, cookies[i].1)
      ensures cookieWrites == old(cookieWrites) + Assigned(cookies)
    {
      var i := 0;
      while i < |cookies|
        invariant 0 <= i <= |cookies|
        invariant cookieWrites == old(cookieWrites) + Assigned(cookies[..i])
      {
        assert cookies[..i + 1][..i] == cookies[..i];
        cookieWrites := cookieWrites + [CookieString(cookies[i].0, cookies[i].1)];
        i := i + 1;
      }
      assert cookies[..i] == cookies;
    }
  }
}
