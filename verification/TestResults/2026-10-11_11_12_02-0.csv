TestResult.DisplayName,TestResult.Outcome,TestResult.Duration,TestResult.ResourceCount,RandomSeed
Util.FinishScan (correctness),Failed,00:00:02.1246776,30052495,0
Util.FinishScan (well-formedness),Passed,00:00:00.1315350,75396,0
