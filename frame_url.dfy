/**
 * The snapshot URL a wireless camera is polled at (`startWirelessCapture`):
 * the user's address, given a scheme and the IP Webcam port when it has
 * neither, with its path rewritten to `/shot.jpg`.
 */
module FrameUrls {
  import opened Text

  const SHOT: string := "/shot.jpg"
  const VIDEO: string := "/video"

  /** The address before its path is rewritten: a scheme, and port 8080 when no port is given. */
  function BaseUrl(trimmed: string): string {
    if Contains(trimmed, "://") then TrimEnd(trimmed, {'/'})
    else "http://" + (if ':' in trimmed then trimmed else trimmed + ":8080")
  }

  /** The path rewrite: `/video` becomes `/shot.jpg`, a URL naming `/shot.jpg` stays, else it is appended. */
  function RewritePath(sanitized: string): string {
    if EndsWithIgnoreCase(sanitized, VIDEO) then sanitized[..|sanitized| - |VIDEO|] + SHOT
    else if EndsWith(Lower(sanitized), SHOT) then sanitized
    else if Contains(Lower(sanitized), SHOT) then sanitized
    else sanitized + SHOT
  }

  /** `frameUrl` for the address `ip`. */
  function FrameUrl(ip: string): string {
    RewritePath(TrimEnd(BaseUrl(Trim(ip, Whitespace)), {'/'}))
  }

  /** Whatever the input, the URL polled contains `/shot.jpg`, ignoring case. */
  lemma FrameUrlHasShot(ip: string)
    ensures Contains(Lower(FrameUrl(ip)), SHOT)
  {
    RewriteHasShot(TrimEnd(BaseUrl(Trim(ip, Whitespace)), {'/'}));
  }

  /** The path rewrite always leaves `/shot.jpg` in the URL, ignoring case. */
  lemma RewriteHasShot(sanitized: string)
    ensures Contains(Lower(RewritePath(sanitized)), SHOT)
  {
    if EndsWithIgnoreCase(sanitized, VIDEO) {
      var head := sanitized[..|sanitized| - |VIDEO|];
      ShotIsLower();
      LowerAppend(head, SHOT);
      ContainsSuffix(Lower(head) + SHOT, SHOT);
    } else if EndsWith(Lower(sanitized), SHOT) {
      ContainsSuffix(Lower(sanitized), SHOT);
    } else if !Contains(Lower(sanitized), SHOT) {
      ShotIsLower();
      LowerAppend(sanitized, SHOT);
      ContainsSuffix(Lower(sanitized) + SHOT, SHOT);
    }
  }

  lemma ShotIsLower()
    ensures Lower(SHOT) == SHOT
  {
  }

  /** Characters of a bare address: digits, dots and an optional `:port`. */
  predicate HostChar(c: char) {
    IsDigit(c) || c == '.' || c == ':'
  }

  /** A string without `:` does not contain `://`. */
  lemma NoSchemeWithoutColon(s: string)
    requires ':' !in s
    ensures !Contains(s, "://")
  {
    forall i | 0 <= i <= |s| - 3
      ensures !OccursAt(s, "://", i)
    {
      assert s[i] != ':';
    }
  }

  /** `http://` followed by host characters contains `/` only in the scheme, so no `/shot.jpg`. */
  lemma NoShotInHostUrl(host: string)
    requires forall i | 0 <= i < |host| :: HostChar(host[i])
    ensures !Contains(Lower("http://" + host), SHOT)
  {
    var u := "http://" + host;
    var lu := Lower(u);
    forall i | 0 <= i <= |lu| - |SHOT|
      ensures !OccursAt(lu, SHOT, i)
    {
      if i + 1 >= 7 {
        assert lu[i + 1] == LowerChar(host[i + 1 - 7]);
      } else {
        assert lu[i + 1] == LowerChar("http://"[i + 1]);
      }
      assert lu[i..i + |SHOT|][1] == lu[i + 1] != SHOT[1];
    }
  }

  /**
   * A bare address (digits, dots, optionally `:port`, surrounded by
   * whitespace or not) becomes `http://` + address, with `:8080` when it
   * names no port, + `/shot.jpg`: "192.168.1.55" is polled at
   * "http://192.168.1.55:8080/shot.jpg".
   */
  lemma BareAddressUrl(ip: string)
    requires var t := Trim(ip, Whitespace); forall i | 0 <= i < |t| :: HostChar(t[i])
    ensures var t := Trim(ip, Whitespace);
            FrameUrl(ip) == "http://" + t + (if ':' in t then "" else ":8080") + SHOT
  {
    BareHostUrl(Trim(ip, Whitespace));
  }

  /** The same for the trimmed address. */
  lemma BareHostUrl(t: string)
    requires forall i | 0 <= i < |t| :: HostChar(t[i])
    ensures RewritePath(TrimEnd(BaseUrl(t), {'/'})) == "http://" + t + (if ':' in t then "" else ":8080") + SHOT
  {
    var host := if ':' in t then t else t + ":8080";
    HostBase(t);
    HostUrlGetsShot(host);
    assert "http://" + t + (if ':' in t then "" else ":8080") == "http://" + host;
  }

  /** A bare address gets the scheme and, without a port, `:8080`; no slash is trimmed. */
  lemma HostBase(t: string)
    requires forall i | 0 <= i < |t| :: HostChar(t[i])
    ensures var host := if ':' in t then t else t + ":8080";
            && (forall i | 0 <= i < |host| :: HostChar(host[i]))
            && TrimEnd(BaseUrl(t), {'/'}) == "http://" + host
  {
    NoSchemeWithoutSlash(t);
    var host := if ':' in t then t else t + ":8080";
    assert forall i | 0 <= i < |host| :: HostChar(host[i]);
    var base := "http://" + host;
    assert BaseUrl(t) == base;
    assert base[|base| - 1] != '/';
  }

  /** `http://` + host characters has `/shot.jpg` appended. */
  lemma HostUrlGetsShot(host: string)
    requires forall i | 0 <= i < |host| :: HostChar(host[i])
    ensures RewritePath("http://" + host) == "http://" + host + SHOT
  {
    LastNotLetter("http://" + host, host);
    NoShotInHostUrl(host);
  }

  /** A string of host characters does not contain `://`. */
  lemma NoSchemeWithoutSlash(s: string)
    requires forall i | 0 <= i < |s| :: HostChar(s[i])
    ensures !Contains(s, "://")
  {
    forall i | 0 <= i <= |s| - 3
      ensures !OccursAt(s, "://", i)
    {
      assert s[i..i + 3][1] == s[i + 1];
    }
  }

  /** An address ending in a host character ends neither in `/video` nor in `/shot.jpg`. */
  lemma LastNotLetter(base: string, host: string)
    requires |base| >= 7 && base == "http://" + host
    requires forall i | 0 <= i < |host| :: HostChar(host[i])
    ensures !EndsWithIgnoreCase(base, VIDEO) && !EndsWith(Lower(base), SHOT)
  {
    var lb := Lower(base);
    var last := lb[|lb| - 1];
    if host == [] {
      assert last == '/';
    } else {
      assert last == LowerChar(host[|host| - 1]);
    }
    assert Lower(VIDEO) == VIDEO;
    assert lb[|lb| - |VIDEO|..][|VIDEO| - 1] == last != VIDEO[|VIDEO| - 1];
    if |lb| >= |SHOT| {
      assert lb[|lb| - |SHOT|..][|SHOT| - 1] == last != SHOT[|SHOT| - 1];
    }
  }

  /** An `http://` address contains the scheme separator. */
  lemma HttpHasScheme(rest: string)
    ensures Contains("http://" + rest, "://")
  {
    var u := "http://" + rest;
    assert u[4..7] == "://" by {
      assert u[4] == ':' && u[5] == '/' && u[6] == '/';
    }
    assert OccursAt(u, "://", 4);
  }

  /** An address starting with `h` and ending in `/` has no whitespace to trim. */
  lemma HttpTrimmed(u: string)
    requires |u| > 0 && u[0] == 'h' && u[|u| - 1] == '/'
    ensures Trim(u, Whitespace) == u
  {
    assert u[0] !in Whitespace;
    assert TrimStart(u, Whitespace) == u;
    assert u[|u| - 1] !in Whitespace;
  }

  /**
   * An MJPEG address with a scheme is turned into the snapshot address
   * next to it: "http://10.0.0.2:8080/video/" is polled at
   * "http://10.0.0.2:8080/shot.jpg".
   */
  lemma VideoAddressRewritten(head: string)
    requires |head| > 0 && head[0] !in Whitespace && Contains(head, "://")
    ensures FrameUrl(head + VIDEO + "/") == head + SHOT
  {
    SchemeAddressBase(head, VIDEO);
    VideoPathRewritten(head);
  }

  /** An address with a scheme, a path and a trailing slash loses only the slash before the rewrite. */
  lemma SchemeAddressBase(head: string, path: string)
    requires |head| > 0 && head[0] !in Whitespace && Contains(head, "://")
    requires |path| > 0 && path[|path| - 1] != '/'
    ensures TrimEnd(BaseUrl(Trim(head + path + "/", Whitespace)), {'/'}) == head + path
  {
    var s := head + path;
    var u := s + "/";
    ContainsExtended(head, path + "/", "://");
    assert head + (path + "/") == u;
    NoWhitespaceAtEnds(u);
    assert BaseUrl(u) == TrimEnd(u, {'/'});
    assert u[..|u| - 1] == s;
    assert TrimEnd(u, {'/'}) == TrimEnd(s, {'/'});
  }

  /** A string that starts and ends with non-whitespace is its own trim. */
  lemma NoWhitespaceAtEnds(u: string)
    requires |u| > 0 && u[0] !in Whitespace && u[|u| - 1] !in Whitespace
    ensures Trim(u, Whitespace) == u
  {
    assert TrimStart(u, Whitespace) == u;
  }

  /** `/video` at the end of an address is replaced by `/shot.jpg`. */
  lemma VideoPathRewritten(head: string)
    ensures RewritePath(head + VIDEO) == head + SHOT
  {
    var s := head + VIDEO;
    assert EndsWithIgnoreCase(s, VIDEO) by {
      assert s[|s| - |VIDEO|..] == VIDEO;
      assert Lower(s)[|s| - |VIDEO|..] == Lower(VIDEO);
    }
    assert s[..|s| - |VIDEO|] == head;
  }

  /**
   * An address with a scheme that already names the snapshot, in any case,
   * is kept but for trailing slashes: "http://cam.local/Shot.JPG/" is polled
   * at "http://cam.local/Shot.JPG".
   */
  lemma ShotAddressKept(head: string, path: string)
    requires |head| > 0 && head[0] !in Whitespace && Contains(head, "://")
    requires |path| == |SHOT| && Lower(path) == SHOT && path[|path| - 1] != '/'
    ensures FrameUrl(head + path + "/") == head + path
  {
    SchemeAddressBase(head, path);
    ShotPathKept(head, path);
  }

  /** An address ending in `/shot.jpg`, in any case, is not rewritten. */
  lemma ShotPathKept(head: string, path: string)
    requires |path| == |SHOT| && Lower(path) == SHOT
    ensures RewritePath(head + path) == head + path
  {
    var s := head + path;
    LowerAppend(head, path);
    assert !EndsWithIgnoreCase(s, VIDEO) by {
      assert Lower(s)[|s| - 1] == SHOT[|SHOT| - 1];
      assert Lower(s)[|s| - |VIDEO|..][|VIDEO| - 1] == Lower(s)[|s| - 1];
    }
    assert EndsWith(Lower(s), SHOT) by {
      assert Lower(s)[|s| - |SHOT|..] == Lower(path);
    }
  }
}
