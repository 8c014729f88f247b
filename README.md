# IoT sensor management: a Dafny model of the data path

This project models the data path of the IoT sensor management system, in Dafny:

- **Sensors and workers.** A sensor buffers the readings it generates. A worker reports the buffered readings to the API through the API client. Only after a successful send does it clear the buffer.
- **Ingestion.** The sensor service classifies each telemetry item by its first present field (illuminance, then temperature, then humidity) and stores it in a repository.
- **Queries.** The repositories answer two queries: "the newest 100 readings, newest first" and "the daily maxima over the last N days, with a zero for each day without readings".

Two repositories are modelled:

- the in-memory repository, a class with a map of per-device lists and a device registry;
- the Entity Framework repository, a class whose state is the database's SensorData rows and Devices table.

A separate module proves how they relate, when each in-memory list holds exactly the database rows of its device:

- They return the same readings. This holds with readings of equal timestamps kept in insertion order, which the model assumes of the database.
- They return the same daily maxima for every device whose readings all have timestamps in years 1 to 9999.
- They differ for a device without readings. There the in-memory repository returns an empty sequence, while the database repository returns `days` zero entries.
- They differ when a stored timestamp lies outside years 1 to 9999. There the in-memory query throws, while the database still answers.
- They differ when a reading is added for a device the database does not know. The in-memory repository stores it, while the database save fails on the foreign key.

Modules, one per file:

| module | models |
|---|---|
| `Types` | The SensorType enum (open: `Unnamed(code)` stands for any other enum value), the ISensorData classes, the SensorData row, the wire DTO, Device, SensorConfiguration and DailyMaximumReading. |
| `SensorTypeJson` | The SensorType JSON converter. |
| `Mappings` | The AutoMapper profile, with every declared map written as a function. |
| `Storage` | Value extraction and read-back shared by both repositories, and the stable newest-first order with `Take(100)`. |
| `DailyMaxima` | The window filter, the grouping by UTC day, the maximum and the zero-filling join, together with an independent specification of the result. |
| `InMemoryStore` | The in-memory repository class. |
| `EFStore` | The database repository class. |
| `RepositoryAgreement` | How the two repositories relate. |
| `Telemetry` | The sensor service: ProcessTelemetry, GetAllData and GetDeviceStatistics. |
| `Api` | The API client: DTO conversion and the failure contract of SendData. |
| `ClientServiceRoundTrip` | Client conversion followed by service ingestion. |
| `Sensors` | The base sensor class and its buffer. |
| `SensorFactories` | The sensor factory. |
| `Workers` | The sensor worker: the read tick, the report tick and the execute loop. |
| `WorkerFactories` | The worker factory. |
| `WorkerManagement` | The worker manager. |

Modelling conventions:

- A UTC date is a day number, `timestamp / 86400`. Dafny's division rounds down, as the calendar does.
- The current day and the current time are parameters.
- `double` becomes `real`, and `long` and `TimeSpan` become `int`.
- An exception becomes an `Err`/`Fail` value naming the exception.

## Model

All source paths below are relative to the repository root.

| member | source | states |
|---|---|---|
| SensorTypeJson.Write | IoTSensorManagement.Shared/Converters/SensorTypeJsonConverter.cs:15-18 | A named member is written as its name. Any other enum value is written as its decimal number. |
| SensorTypeJson.Read | IoTSensorManagement.Shared/Converters/SensorTypeJsonConverter.cs:9-13 | On success, the value is a named member whose name equals the string up to letter case. Every failure is ArgumentException. |
| SensorTypeJson.ReadIgnoresCase | IoTSensorManagement.Shared/Converters/SensorTypeJsonConverter.cs:9-13 | Every letter-case variant of a member's name reads as that member. |
| SensorTypeJson.ReadRejectsOtherNames | IoTSensorManagement.Shared/Converters/SensorTypeJsonConverter.cs:12 | A string that is no member's name, in any case, throws ArgumentException. |
| SensorTypeJson.ReadWrite | IoTSensorManagement.Shared/Converters/SensorTypeJsonConverter.cs:9-18 | Read(Write(v)) == v for every named member. |
| Mappings.GetSensorType | IoTSensorManagement.Core/Mappings/AutoMapperProfile.cs:46-52 | The kind is Light iff illuminance is present. It is Temperature iff only temperature and possibly humidity are present, and Humidity iff only humidity is present. It throws ArgumentException iff no field is present. |
| Mappings.ValueFollowsType | IoTSensorManagement.Core/Mappings/AutoMapperProfile.cs:54-57 | The `??` chain yields exactly the field of the kind GetSensorType picks. That value is non-null whenever a kind is picked, and null when none is. |
| Mappings.DtoToSensorData | IoTSensorManagement.Core/Mappings/AutoMapperProfile.cs:12-14 | The mapping succeeds iff the DTO has a kind. It then carries the DTO's timestamp, that kind and the value from GetSensorValue. Otherwise it throws the mapper's AutoMapperMappingException, wrapping the resolver's ArgumentException. |
| Mappings.SensorDataToDto | IoTSensorManagement.Core/Mappings/AutoMapperProfile.cs:17-20 | The DTO keeps the timestamp and puts the value in the record's own kind field. The other two fields are null. |
| Mappings.RecordRoundTrip | IoTSensorManagement.Core/Mappings/AutoMapperProfile.cs:12-20 | SensorData → DTO → SensorData succeeds iff the kind is named and the value is non-null. It then gives back the record, apart from the device id the DTO does not carry. |
| Mappings.DtoToTyped | IoTSensorManagement.Core/Mappings/AutoMapperProfile.cs:23-33 | The result is the concrete reading of the kind, with the DTO's timestamp. Its value is the kind's field, or 0 when that field is missing. |
| Mappings.TypedToDto | IoTSensorManagement.Core/Mappings/AutoMapperProfile.cs:36-43 | The DTO has the reading's timestamp and puts the value in the reading's own field only. |
| Mappings.TypedRoundTrip | IoTSensorManagement.Core/Mappings/AutoMapperProfile.cs:23-43 | Reading → DTO gives a DTO whose GetSensorType is the reading's kind. Mapping it back gives the same reading. |
| Storage.GetSensorValue | IoTSensorManagement.Core/Repositories/InMemorySensorRepository.cs:112-121 | The value is non-null iff the object is one of the three concrete classes. It is then that reading's own value. |
| Storage.CreateSensorData | IoTSensorManagement.Core/Repositories/InMemorySensorRepository.cs:123-132 | Read-back succeeds iff the kind is named. It gives the concrete class of that kind, with the same timestamp and with null turned into 0. Otherwise it throws ArgumentException. |
| Storage.StoreReadBack | IoTSensorManagement.Core/Repositories/InMemorySensorRepository.cs:112-132 | A stored concrete reading reads back equal. Another ISensorData of a named kind reads back with value 0. One of an unnamed kind throws. |
| Storage.ReadBackAll | IoTSensorManagement.Core/Repositories/InMemorySensorRepository.cs:47-51 | Reading back a list succeeds iff every row's kind is named. The result is then elementwise the read-back of each row, in order. |
| Storage.NewestFirstIsStableSort | IoTSensorManagement.Core/Repositories/InMemorySensorRepository.cs:47-48 | The newest-first order is sorted by descending timestamp and is a permutation of the input. Readings with equal timestamps keep their input order. |
| Storage.LatestSpec | IoTSensorManagement.Core/Repositories/InMemorySensorRepository.cs:47-49 | The result has min(100, n) readings, newest first, all drawn from the input. With at most 100 readings, ties keep their insertion order. |
| Storage.LatestLeavesOutOnlyOlder | IoTSensorManagement.Core/Repositories/InMemorySensorRepository.cs:47-49 | Take(100) splits the sorted readings. No reading left out is newer than any reading returned. |
| DailyMaxima.WindowDays | IoTSensorManagement.Core/Repositories/InMemorySensorRepository.cs:83-85 | The window is `days` consecutive day numbers in ascending order, ending today. |
| DailyMaxima.InWindowValues | IoTSensorManagement.Core/Repositories/InMemorySensorRepository.cs:68-72 | Date filtering keeps every value of a window day and no value of any other day. |
| DailyMaxima.DayMaximaSpec | IoTSensorManagement.Core/Repositories/InMemorySensorRepository.cs:73-78 | A day has a group iff it has readings. The group's value is the maximum of those readings' values, with null counted as 0. |
| DailyMaxima.FillDaysShape | IoTSensorManagement.Core/Repositories/InMemorySensorRepository.cs:83-92 | The join yields one entry per window day, with consecutive, strictly ascending dates ending today. |
| DailyMaxima.DailySeriesSpec | IoTSensorManagement.Core/Repositories/InMemorySensorRepository.cs:65-92 | A negative day count throws ArgumentOutOfRangeException. Otherwise there are exactly `days` entries dated today-(days-1) .. today, each the maximum of its day's values, or 0 for a day without readings. |
| DailyMaxima.SeriesDependsOnlyOnWindow | IoTSensorManagement.Core/Repositories/InMemorySensorRepository.cs:68-72 | Two reading lists with the same values on every window day give the same series. Readings outside the window never matter. |
| DailyMaxima.SecondBoundsMatchDays | IoTSensorManagement.Core/Repositories/EFSensorRepository.cs:47-49 | The bounds 86400·first <= ts < 86400·(last+1) hold iff the UTC day of ts lies in first..last. |
| InMemoryStore.IndexByIdMembers | IoTSensorManagement.Core/Repositories/InMemorySensorRepository.cs:14-20 | The registry holds exactly the ids of the initial devices. |
| InMemoryStore.IndexByIdLastWins | IoTSensorManagement.Core/Repositories/InMemorySensorRepository.cs:16-19 | A device that no later initial device shares its id with is the one registered under that id: the last one wins. |
| InMemoryStore.InMemorySensorRepository.constructor | IoTSensorManagement.Core/Repositories/InMemorySensorRepository.cs:12-21 | A new repository has no readings. Its registry is the initial devices indexed by id, or empty when the list is null. |
| InMemoryStore.AppendAll | IoTSensorManagement.Core/Repositories/InMemorySensorRepository.cs:25-39 | Appending puts the rows at the end of that device's list, creating the list if it is absent. Other devices' lists are unchanged, and appending nothing changes nothing. |
| InMemoryStore.InMemorySensorRepository.AddSensorReading | IoTSensorManagement.Core/Repositories/InMemorySensorRepository.cs:23-41 | Exactly one row (deviceId, timestamp, kind, value) is appended to that device's list. Every other list and the registry are unchanged. |
| InMemoryStore.InMemorySensorRepository.GetSensorReadings | IoTSensorManagement.Core/Repositories/InMemorySensorRepository.cs:43-56 | An unknown device gives an empty result. A known device gives the read-back of its newest 100 rows, newest first. |
| InMemoryStore.GetSensorReadingsSpec | IoTSensorManagement.Core/Repositories/InMemorySensorRepository.cs:43-56 | When every stored kind is named, the query succeeds with min(100, n) readings. Each is the read-back of the row at that place in newest-first order. |
| InMemoryStore.StoredTypedReadingsReadBack | IoTSensorManagement.Core/Repositories/InMemorySensorRepository.cs:31-37 | Concrete readings stored as rows read back as the same readings, in order. |
| InMemoryStore.InMemorySensorRepository.GetDailyMaximumReadings | IoTSensorManagement.Core/Repositories/InMemorySensorRepository.cs:58-95 | A device without a list gets an empty sequence. If any row of the list, inside the window or not, has a timestamp outside years 1 to 9999, the query throws ArgumentOutOfRangeException. Otherwise the device gets the daily series of its list. |
| Types.Lookup | IoTSensorManagement.Core/Repositories/InMemorySensorRepository.cs:97-104 | A registered id gives its device, and an unregistered id gives null. |
| InMemoryStore.InMemorySensorRepository.GetDevice | IoTSensorManagement.Core/Repositories/InMemorySensorRepository.cs:97-104 | The result is the registry lookup Types.Lookup. |
| InMemoryStore.InMemorySensorRepository.AddOrUpdateDevice | IoTSensorManagement.Core/Repositories/InMemorySensorRepository.cs:106-110 | The device is registered under its id, replacing any device with that id. GetDevice(d.id) then returns d, and the readings are unchanged. |
| EFStore.ForDevice | IoTSensorManagement.Core/Repositories/EFSensorRepository.cs:33-34 | The result holds exactly the table's rows with that device id. It is empty iff no row has that id. |
| EFStore.SecondWindowIsDayWindow | IoTSensorManagement.Core/Repositories/EFSensorRepository.cs:46-49 | The second-bound query selects exactly the device's rows dated inside the day window, in table order. |
| EFStore.Saved | IoTSensorManagement.Core/Data/ApplicationDbContext.cs:21-24 | The save succeeds iff the device id is registered. It then adds exactly one row (deviceId, timestamp, kind, value) at the end of the table and keeps every earlier row. Otherwise it throws DbUpdateException. |
| EFStore.EFSensorRepository.AddSensorReading | IoTSensorManagement.Core/Repositories/EFSensorRepository.cs:17-29 | For a registered device, exactly one row is added to the end of the table. For any other device id, the save fails on the foreign key with DbUpdateException and the table is unchanged. |
| EFStore.EFSensorRepository.GetSensorReadings | IoTSensorManagement.Core/Repositories/EFSensorRepository.cs:31-39 | The result is the read-back of the device's newest 100 rows, newest first. |
| EFStore.EFSensorRepository.GetDailyMaximumReadings | IoTSensorManagement.Core/Repositories/EFSensorRepository.cs:41-75 | Selecting by second bounds and then grouping and filling gives the daily series of the device's rows. |
| EFStore.EFSensorRepository.GetDevice | IoTSensorManagement.Core/Repositories/EFSensorRepository.cs:77-80 | The result is the registry lookup Types.Lookup on the Devices table. |
| EFStore.NoRowsGivesZeroWindow | IoTSensorManagement.Core/Repositories/EFSensorRepository.cs:63-72 | A device with no rows still gets `days` ascending entries ending today, all zero. |
| RepositoryAgreement.AddKeepsCorrespondence | IoTSensorManagement.Core/Repositories/InMemorySensorRepository.cs:23-41 | For a device registered in the database, the save succeeds. Adding the same reading to both repositories keeps each in-memory list equal to the table's rows for that device. |
| RepositoryAgreement.AddToUnregisteredDeviceDiverges | IoTSensorManagement.Core/Data/ApplicationDbContext.cs:21-24 | For a device not registered in the database, the save fails with DbUpdateException. The in-memory repository stores the reading, so the two no longer correspond. |
| RepositoryAgreement.SameReadings | IoTSensorManagement.Core/Repositories/EFSensorRepository.cs:31-39 | Repositories that correspond return the same readings for every device. |
| RepositoryAgreement.SameDailyMaximaForKnownDevice | IoTSensorManagement.Core/Repositories/EFSensorRepository.cs:41-75 | Repositories that correspond return the same daily maxima for a device with readings, when all its timestamps lie in years 1 to 9999. |
| RepositoryAgreement.DailyMaximaDifferForUndatableRow | IoTSensorManagement.Core/Repositories/InMemorySensorRepository.cs:68-72 | One stored timestamp outside years 1 to 9999 makes the in-memory query throw ArgumentOutOfRangeException. The database selects by raw seconds and still returns a series. |
| RepositoryAgreement.DailyMaximaDifferForUnknownDevice | IoTSensorManagement.Core/Repositories/InMemorySensorRepository.cs:60-63 | For a device without readings, the in-memory repository returns an empty sequence. The database repository returns `days` zero entries. |
| Telemetry.MapToSensorData | IoTSensorManagement.Core/Services/SensorService.cs:134-144 | An item maps iff GetSensorType does, to a concrete reading of that kind. The reading has the item's timestamp and the value of the first present field. Otherwise the mapping throws ArgumentException. |
| Telemetry.Ingested | IoTSensorManagement.Core/Services/SensorService.cs:22-35 | One row per item, in list order, all under deviceId, up to the first item that cannot be mapped. |
| Telemetry.ProcessTelemetry | IoTSensorManagement.Core/Services/SensorService.cs:22-35 | The stored lists become the old lists with the ingested rows appended to deviceId's list. The call succeeds iff every item mapped. The rows stored before a rejected item stay, and an empty list adds nothing. |
| Telemetry.IngestedReadsBack | IoTSensorManagement.Core/Services/SensorService.cs:24-28 | Each stored row reads back as the concrete reading of its item's kind, timestamp and value. |
| Telemetry.IngestedCount | IoTSensorManagement.Core/Services/SensorService.cs:24-28 | Every item is stored iff every item has a value field. |
| Telemetry.Shape | IoTSensorManagement.Core/Services/SensorService.cs:52-67 | A concrete reading becomes {time, its kind's key: value}. A named kind on another class throws InvalidCastException, and an unnamed kind gives null. |
| Telemetry.ShapeAll | IoTSensorManagement.Core/Services/SensorService.cs:45-70 | Shaping a list fails iff some reading fails the cast. A successful result has no more entries than readings. |
| Telemetry.ShapeAllMembers | IoTSensorManagement.Core/Services/SensorService.cs:45-70 | A successful result holds exactly the entries the readings shape to. The readings of an unnamed kind are dropped, and nothing else is. |
| Telemetry.ShapeAllAppend | IoTSensorManagement.Core/Services/SensorService.cs:45-70 | Shaping keeps order: shaping a + b gives the entries of a followed by the entries of b. |
| Telemetry.ShapeAllTyped | IoTSensorManagement.Core/Services/SensorService.cs:45-70 | Concrete readings give one entry each, in order, with time, the kind's key and the value. |
| Telemetry.GetAllData | IoTSensorManagement.Core/Services/SensorService.cs:37-73 | An empty repository result gives an empty list. A repository failure propagates. |
| Telemetry.GetAllDataSpec | IoTSensorManagement.Core/Services/SensorService.cs:37-73 | Over the in-memory repository each returned reading gives exactly one entry, in repository order, with "time" and one of "illum"/"temp"/"hum". |
| Telemetry.GetDeviceStatistics | IoTSensorManagement.Core/Services/SensorService.cs:75-132 | An unknown device gives null, and so does an empty list of 30-day maxima. An exception from the repository's query passes through. Otherwise there is one item per maximum, in order, with its field named by the device's type (maxValue as fallback). |
| Telemetry.StatisticsNullOnlyWithoutReadings | IoTSensorManagement.Core/Services/SensorService.cs:83-87 | For a registered device the maxima are empty iff the device has no stored readings. For a device with readings, the query succeeds iff every stored timestamp lies in years 1 to 9999, and then covers the 30 days ending today. |
| Api.DtoOf | IoTSensorManagement.Core/Services/ApiClient.cs:49-64 | A concrete reading gives a DTO with its timestamp and its own field only. Any other class gives none. |
| Api.DtoOfIsProfileMap | IoTSensorManagement.Core/Services/ApiClient.cs:54-64 | The client's conversion equals the mapping profile's typed-reading map. |
| Api.ConvertToSensorDataDtos | IoTSensorManagement.Core/Services/ApiClient.cs:44-72 | The loop yields exactly the DTOs of the concrete readings, in input order. |
| Api.KnownDtosSpec | IoTSensorManagement.Core/Services/ApiClient.cs:44-72 | There is one DTO per concrete reading, in order, and readings of unknown classes are skipped. |
| Api.ApiClient.SendData | IoTSensorManagement.Core/Services/ApiClient.cs:21-41 | A successful post records the converted batch under devices/{id}/telemetry. A failed post records nothing and is rethrown to the caller. |
| ClientServiceRoundTrip.ClassifyRecoversReading | IoTSensorManagement.Core/Services/ApiClient.cs:54-64 | Classifying the DTO the client produced gives back the original reading's kind, timestamp and value. |
| ClientServiceRoundTrip.PostedBatchIsStoredAsRead | IoTSensorManagement.Core/Services/ApiClient.cs:44-72 | Ingesting a posted batch of concrete readings accepts every item and stores exactly those readings, in order. |
| Sensors.BaseSensor.constructor | IoTSensorManagement.Sensors/Base/BaseSensor.cs:9-21 | DeviceId, type and both intervals are the arguments (immutable), and the buffer starts empty. |
| Sensors.BaseSensor.BufferReading | IoTSensorManagement.Sensors/Base/BaseSensor.cs:25-28 | One reading is appended at the back, and earlier entries are unchanged. |
| Sensors.BaseSensor.GetBufferedData | IoTSensorManagement.Sensors/Base/BaseSensor.cs:30-33 | The snapshot is the buffer in insertion order, and nothing is removed. |
| Sensors.BaseSensor.ClearBuffer | IoTSensorManagement.Sensors/Base/BaseSensor.cs:35-38 | The buffer ends empty whatever it held, so clearing twice is clearing once. |
| Sensors.BaseSensor.GenerateData | IoTSensorManagement.Sensors/Sensors/LightSensor.cs:16-26 | The generated reading is of the sensor's kind, and exactly that reading is buffered. |
| SensorFactories.CreateSensor | IoTSensorManagement.Sensors/Factories/SensorFactory.cs:11-20 | The created sensor's type, device id and intervals come from the configuration, and its buffer is empty. An unnamed type throws ArgumentException. |
| Workers.SensorWorker.constructor | IoTSensorManagement.Workers/Base/SensorWorker.cs:13-20 | The worker keeps the given sensor, client and configuration. |
| Workers.SensorWorker.ReadTick | IoTSensorManagement.Workers/Base/SensorWorker.cs:44-51 | A fired tick generates and buffers exactly one reading. A tick that does not fire changes nothing. |
| Workers.SensorWorker.ReportTick | IoTSensorManagement.Workers/Base/SensorWorker.cs:53-69 | On an empty buffer nothing is sent and nothing is cleared. Otherwise the snapshot is sent once under the sensor's id. The buffer is cleared only after a successful send, so a failed send keeps every reading. |
| Workers.SensorWorker.Execute | IoTSensorManagement.Workers/Base/SensorWorker.cs:22-42 | Over a sequence of ticks, generation happens once per fired read tick, and sends never outnumber fired report ticks. Every generated reading stays delivered or buffered. |
| Workers.SensorWorker.Start | IoTSensorManagement.Workers/Base/SensorWorker.cs:22-25 | Starting runs the worker when PeriodicTimer accepts both of the sensor's periods. A period it rejects, such as TimeSpan.Zero, makes the start throw ArgumentOutOfRangeException, and the worker does not run. |
| Workers.SensorWorker.Stop | IoTSensorManagement.Workers/WorkerManager.cs:33 | Stopping marks the hosted worker not running. |
| WorkerFactories.WorkerFactory.CreateWorker | IoTSensorManagement.Workers/Factories/WorkerFactory.cs:24-34 | The sensor factory runs first, so an unnamed type throws ArgumentException. Otherwise the result is a new worker of the class matching the type, with a new sensor built from the same configuration and the factory's shared ApiClient. |
| WorkerManagement.StartedCount | IoTSensorManagement.Workers/WorkerManager.cs:21-26 | Start gets through exactly the configurations before the first one that has an unnamed type or a period the timer rejects. |
| WorkerManagement.WorkerManager.Start | IoTSensorManagement.Workers/WorkerManager.cs:18-27 | One new worker per configuration is appended and started, in configuration order, and earlier workers stay. The list only grows. An unnamed type throws ArgumentException before its worker is recorded. A rejected period throws ArgumentOutOfRangeException after its worker is recorded, and that worker is not running. Either way the workers started before it stay running, and no later configuration is started. |
| WorkerManagement.WorkerManager.Stop | IoTSensorManagement.Workers/WorkerManager.cs:29-35 | Every recorded worker is stopped exactly once, in start order. |

## Left out

- The simulated values of the concrete sensors (trigonometry, `Random`, the clock, `Math.Round`) are left out. GenerateData takes the value and the time as parameters.
- The concurrency of ExecuteAsync is left out: PeriodicTimer, `Task.WhenAny` over two tasks, cancellation and the 30-second back-off. Execute runs one tick at a time, so snapshot, send and clear happen as one step. In the source, a reading buffered between SensorWorker.cs:57 and :62 is cleared without being sent. The invariant "delivered + buffer == generated" therefore holds only for the sequential model.
- Workers.SensorWorker.Execute: the timer outcomes are an input sequence, and the model does not say which timer fires when.
- The thread safety of ConcurrentDictionary and ConcurrentQueue is left out. They are plain maps and sequences.
- Logging is left out everywhere.
- HTTP and JSON serialisation in SendDataAsync are left out. Whether the transport succeeds is a parameter.
- Api.ApiClient.SendData: a failed post records nothing. A server that stored part of the batch before failing is not modelled.
- EFStore.EFSensorRepository.GetSensorReadings: the database's order for equal timestamps is unspecified. The model uses insertion order, as the in-memory repository does.
- Storage.LatestSpec: the order of equal timestamps is stated only when at most 100 readings are stored. Beyond that, the result is still the prefix of the stable order.
- Of the database schema, only the foreign key from SensorData to Devices is modelled. The `HasPrecision(18,2)` rounding and the SensorData integer key are left out.
- EFStore.EFSensorRepository.AddSensorReading: after a failed save, the row stays tracked by the context and would be saved again by a later save. The model drops it, which is correct for a context scoped to one request.
- Date formatting (`ToString("yyyy-MM-dd")`) is left out. A date is a UTC day number.
- The DateTime range limit of AddDays is not modelled: AddDays throws outside years 1..9999. The range check of FromUnixTimeSeconds is modelled.
- Workers.TimerAccepts follows PeriodicTimer as of .NET 8, which also accepts the infinite period of -1 ms. Earlier runtimes reject that period.
- `double` NaN and rounding semantics are not modelled; values are reals.
- The 64-bit and 32-bit bounds of timestamps and day counts are not modelled.
- SensorTypeJson.Read: letter case is folded for ASCII only. Enum.Parse's acceptance of numeric strings, surrounding whitespace and comma-separated flag lists is not modelled.
- Null arguments are not modelled: a null device id, a null telemetry list, or a null reading. The device id that the DTO→SensorData map leaves unset is written as the empty string.
- LINQ's deferred execution is not modelled. Each query is a value computed at once.
- The sensor service is modelled over the in-memory repository. The database repository is related to it by the RepositoryAgreement lemmas.
- SensorService.GetTypedMaxValue is left out: it is never called.
- The Infrastructure project's InMemorySensorRepository is left out. It does not implement the repository interface and reads members that the reading interface does not declare.
- The configuration file provider, the controllers, the two Program files and the database context are left out. They are I/O, routing and dependency wiring.
