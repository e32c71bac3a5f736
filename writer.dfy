/** `Wavefront::Writer` (lib/wavefront/writer.rb): a connection to a proxy
    that sends one point per `write`, as the line
    `name value seconds host=H [k="v" ...]`. */
module Writer {
  import opened Text
  import opened Ruby
  import opened Wire
  import opened Proxy
  import Batch

  const DefaultAgentHost := "localhost"
  const DefaultPort := 2878

  /** The options `initialize` reads; None is a missing (or nil) option. */
  datatype WriterOptions = WriterOptions(
    agentHost: Option<string>,
    agentPort: Option<int>,
    hostName: Option<string>,
    metricName: Option<string>,
    pointTags: Option<seq<(string, string)>>)

  /** The options `write` reads. `timestamp` is whatever the caller put under
      `:timestamp`; a falsy one is replaced by the current time. */
  datatype WriteOptions = WriteOptions(
    hostName: Option<string>,
    pointTags: Option<seq<(string, string)>>,
    timestamp: Dyn,
    noop: bool)

  /** The line `write` assembles: the host tag alone when there are no point
      tags, the host tag and then every tag as `k="v"` otherwise. */
  function WriteLine(name: string, value: string, seconds: int, host: string, tags: seq<(string, string)>): string
  {
    var append := if tags == [] then "host=" + host else "host=" + host + " " + TagText(tags);
    Join([name, value, IntToString(seconds), append], " ")
  }

  /** Both branches of the assembly are one join of the fields in order. */
  lemma WriteLineFields(name: string, value: string, seconds: int, host: string, tags: seq<(string, string)>)
    ensures WriteLine(name, value, seconds, host, tags)
         == Join([name, value, IntToString(seconds), "host=" + host] + TagTokens(tags), " ")
  {
    var head := [name, value, IntToString(seconds)];
    var h := "host=" + host;
    if tags == [] {
      assert [name, value, IntToString(seconds), "host=" + host] + TagTokens(tags) == [name, value, IntToString(seconds), h];
      assert [name, value, IntToString(seconds), h] + TagTokens(tags) == head + [h];
    } else {
      JoinAppend(head + [h], TagTokens(tags), " ");
      JoinSnoc(head, h, " ");
      JoinSnoc(head, h + " " + TagText(tags), " ");
      assert [name, value, IntToString(seconds), h] == head + [h];
      assert [name, value, IntToString(seconds), h + " " + TagText(tags)] == head + [h + " " + TagText(tags)];
    }
  }

  /** Without tags the line is exactly `name value seconds host=H`. */
  lemma WriteLineWithoutTags(name: string, value: string, seconds: int, host: string)
    ensures WriteLine(name, value, seconds, host, [])
         == name + " " + value + " " + IntToString(seconds) + " host=" + host
  {
    JoinCons(name, [value, IntToString(seconds), "host=" + host], " ");
    JoinCons(value, [IntToString(seconds), "host=" + host], " ");
    JoinCons(IntToString(seconds), ["host=" + host], " ");
  }

  /** A line with word fields, a host without spaces or quotes and readable
      tags reads back, on the proxy's side, as the point it was written for. */
  lemma WriteLineReadsBack(name: string, value: string, seconds: int, host: string, tags: seq<(string, string)>)
    requires IsWord(name) && IsWord(value) && ' ' !in host && '"' !in host
    requires AllReadable(tags)
    ensures ParseLine(WriteLine(name, value, seconds, host, tags))
         == Some(Line(name, value, Some(seconds), host, tags))
  {
    var head := [name, value] + TsTokens(Some(seconds)) + ["host" + "=" + host];
    WriteLineFields(name, value, seconds, host, tags);
    assert [name, value, IntToString(seconds), "host=" + host] == head by {
      assert "host" + "=" + host == "host=" + host;
    }
    assert Tokens(Join(head + [] + TagTokens(tags), " ")) == head + TagTokens([] + tags) by {
      assert IsWord(IntToString(seconds));
      assert IsWord("host" + "=" + host);
      assert forall i :: 0 <= i < |head| ==> IsWord(head[i]);
      TagTokensReadBack(tags);
      Batch.EncodedTokens(head, [], TagTokens(tags), [], tags);
    }
    assert head + [] + TagTokens(tags) == head + TagTokens(tags);
    assert [] + tags == tags;
    ParseTokensOf(name, value, Some(seconds), "host", host, tags);
  }

  class Writer {
    const agentHost: string
    const agentPort: int
    const hostName: string
    const metricName: string
    const pointTags: seq<(string, string)>
    /** `@socket`, opened on the agent host and port. */
    const socket: Socket

    /** `initialize`: every missing option takes its default; `fqdn` is the
        output of `hostname -f` read when the class is loaded. */
    constructor(options: WriterOptions, fqdn: string, socket: Socket)
      ensures agentHost == OrDefault(options.agentHost, DefaultAgentHost)
      ensures agentPort == OrDefault(options.agentPort, DefaultPort)
      ensures hostName == OrDefault(options.hostName, fqdn)
      ensures metricName == OrDefault(options.metricName, "")
      ensures pointTags == OrDefault(options.pointTags, [])
      ensures this.socket == socket
    {
      agentHost := OrDefault(options.agentHost, DefaultAgentHost);
      agentPort := OrDefault(options.agentPort, DefaultPort);
      hostName := OrDefault(options.hostName, fqdn);
      metricName := OrDefault(options.metricName, "");
      pointTags := OrDefault(options.pointTags, []);
      this.socket := socket;
    }

    /** `write(value, name, options)` at the clock second `now`: the name
        defaults to the writer's `metricName`; an empty name raises
        EmptyMetricName and a timestamp without `to_i` raises
        NoMethodError, both before anything is sent; otherwise the line is
        built from the options, falling back to the writer's host and tags
        and to the current time, and written to the socket unless in no-op
        mode. */
    method Write(value: Dyn, name: Option<string>, options: WriteOptions, now: int) returns (r: Result<string>)
      modifies socket
      ensures OrDefault(name, metricName) == [] ==> r == Err(EmptyMetricName)
      ensures var ts := if Truthy(options.timestamp) then options.timestamp else Time(now, "");
              OrDefault(name, metricName) != [] ==> match ToI(ts)
                case Err(e) => r == Err(e)
                case Ok(seconds) =>
                  r == Ok(WriteLine(OrDefault(name, metricName), ToS(value), seconds, OrDefault(options.hostName, hostName),
                                    OrDefault(options.pointTags, pointTags)))
      ensures r.Err? || options.noop ==> socket.log == old(socket.log) && socket.script == old(socket.script)
      ensures r.Ok? && !options.noop ==>
                socket.log == old(socket.log) + [(r.value, old(socket.script) == [] || old(socket.script)[0])]
    {
      var host := OrDefault(options.hostName, hostName);
      var tags := OrDefault(options.pointTags, pointTags);
      var ts := if Truthy(options.timestamp) then options.timestamp else Time(now, "");
      var metric := OrDefault(name, metricName);
      if metric == [] {
        return Err(EmptyMetricName);
      }
      var seconds := ToI(ts);
      if seconds.Err? {
        return Err(seconds.error);
      }
      var line := WriteLine(metric, ToS(value), seconds.value, host, tags);
      r := Ok(line);
      if !options.noop {
        var _ := socket.Puts(line);
      }
    }
  }
}
