TestResult.DisplayName,TestResult.Outcome,TestResult.Duration,TestResult.ResourceCount,RandomSeed
Util.ScanStep (correctness),Passed,00:00:02.4516042,14032638,0
Util.ScanStep (well-formedness),Passed,00:00:00.0775256,33405,0
