/** The router's hashbang URL normaliser. */
module Hashbang {
  import opened Wrappers

  /** `hashbang(href)`: one leading '/' is dropped, "#!/" is put in front
      unless the rest already starts with "#!", and a '/' goes in front of
      everything.  `None` (and "") stands for a falsy argument. */
  function Hashbang(s: Option<string>): (href: string)
    ensures |href| >= 3 && href[..3] == "/#!"
  {
    var str := if s.Some? then s.value else "";
    var trimmed := if |str| > 0 && str[0] == '/' then str[1..] else str;
    var tagged := if |trimmed| >= 2 && trimmed[..2] == "#!" then trimmed else "#!/" + trimmed;
    assert tagged[..2] == "#!";
    assert ("/" + tagged)[..3] == "/" + tagged[..2];
    "/" + tagged
  }

  /** The documented example. */
  lemma HashbangFoo()
    ensures Hashbang(Some("/foo")) == "/#!/foo"
  {
    assert "/foo"[1..] == "foo";
    assert "foo"[..2] == "fo";
  }

  /** A falsy argument gives the bare root. */
  lemma HashbangFalsy()
    ensures Hashbang(None) == "/#!/"
    ensures Hashbang(Some("")) == "/#!/"
  {
  }

  /** Only one leading slash is dropped. */
  lemma HashbangDoubleSlash()
    ensures Hashbang(Some("//x")) == "/#!//x"
  {
    assert "//x"[1..] == "/x";
    assert "/x"[..2] == "/x";
    assert "/x"[..2] != "#!";
  }

  /** A path that is already a hashbang only gains the leading slash. */
  lemma HashbangTagged(s: string)
    requires |s| >= 2 && s[..2] == "#!"
    ensures Hashbang(Some(s)) == "/" + s
  {
  }

  /** A plain path without a leading slash gains the full prefix. */
  lemma HashbangPlain(s: string)
    requires |s| == 0 || (s[0] != '/' && !(|s| >= 2 && s[..2] == "#!"))
    ensures Hashbang(Some(s)) == "/#!/" + s
  {
  }

  /** Normalising twice is normalising once. */
  lemma HashbangIdempotent(s: Option<string>)
    ensures Hashbang(Some(Hashbang(s))) == Hashbang(s)
  {
    var h := Hashbang(s);
    assert h[0] == '/';
    assert h[1..][..2] == "#!";
  }
}
