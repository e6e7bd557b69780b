/**
 The plugin's settings and its single, lazily created S3 client. PHP keeps the
 client in a static field; here the field is a `Holder` value threaded through
 every call, and a client is the record of the arguments it was built with.
 */
module Connection {
  import opened Text

  /** The plugin options the core reads (`getConfig()`), already validated by
      the host's configuration form. */
  datatype Options = Options(
    endpoint: String,
    region: String,
    bucket: String,
    bucketDomain: String,
    accessKey: String,
    secretKey: String,
    savePath: String)

  /** An `S3Client`, identified by the settings it was constructed with. */
  datatype Client = Client(
    version: String,
    region: String,
    endpoint: String,
    key: String,
    secret: String,
    usePathStyleEndpoint: bool,
    useAwsSharedConfigFiles: bool)

  /** `self::$connection`: empty until the first call to `initConnection`. */
  datatype Holder = Empty | Connected(client: Client)

  /** The client `initConnection` builds from the options. */
  function NewClient(opts: Options): (c: Client)
    ensures c.region == opts.region && c.endpoint == opts.endpoint
    ensures c.key == opts.accessKey && c.secret == opts.secretKey
    ensures c.usePathStyleEndpoint && !c.useAwsSharedConfigFiles
  {
    Client("latest", opts.region, opts.endpoint, opts.accessKey, opts.secretKey, true, false)
  }

  /** `initConnection()`: create the client only when none is held, then
      return the held one. The result pairs the new holder with the client. */
  function InitConnection(h: Holder, opts: Options): (res: (Holder, Client))
    ensures res.0 == Connected(res.1)
    ensures h.Connected? ==> res == (h, h.client)
    ensures h.Empty? ==> res.1 == NewClient(opts)
  {
    match h
    case Connected(c) => (h, c)
    case Empty => (Connected(NewClient(opts)), NewClient(opts))
  }

  /** The clients handed out by a series of `initConnection` calls, each
      made with the options current at that call. */
  function InitSeries(h: Holder, series: seq<Options>): (clients: seq<Client>)
    ensures |clients| == |series|
    decreases |series|
  {
    if |series| == 0 then []
    else
      var (h', c) := InitConnection(h, series[0]);
      [c] + InitSeries(h', series[1..])
  }

  /** The client a holder yields on its next call. */
  function FirstClient(h: Holder, opts: Options): Client
  {
    InitConnection(h, opts).1
  }

  /** Every call in a series returns the same client: the held one, or the
      one the first call built. Later option changes are not picked up. */
  lemma {:induction false} SeriesSharesClient(h: Holder, series: seq<Options>)
    requires |series| > 0
    ensures forall i :: 0 <= i < |series| ==> InitSeries(h, series)[i] == FirstClient(h, series[0])
    decreases |series|
  {
    var (h', c) := InitConnection(h, series[0]);
    var rest := InitSeries(h', series[1..]);
    assert InitSeries(h, series) == [c] + rest;
    if |series| > 1 {
      SeriesSharesClient(h', series[1..]);
      assert FirstClient(h', series[1..][0]) == c;
    }
  }

  /** A second call changes nothing and returns the same client. */
  lemma InitIdempotent(h: Holder, o1: Options, o2: Options)
    ensures var (h1, c1) := InitConnection(h, o1);
            InitConnection(h1, o2) == (h1, c1)
  {
  }
}
